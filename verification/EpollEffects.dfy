/** What the steps of the Linux loop do, told through its records, the ports' tokens and the kernel's interest set. */
module EpollEffects {
  import opened Flags
  import opened DescriptorSpec
  import opened DescriptorEffects
  import opened EpollSpec
  import opened EpollProofs

  // ---------- reports ----------

  /** The report is worth a notification: an error on a readable descriptor, or without an error any direction. */
  predicate Counts(events: bv32)
  {
    if events & EPOLLERR != 0 then events & EPOLLIN != 0
    else events & (EPOLLIN | EPOLLOUT | EPOLLHUP | EPOLLRDHUP) != 0
  }

  /** The bits of a notification are those of the report, hang-ups of either kind being closes. */
  ghost predicate Spells(mask: Events, events: bv32)
  {
    && (mask & IN_EVENT != 0 <==> events & EPOLLIN != 0)
    && (mask & OUT_EVENT != 0 <==> events & EPOLLOUT != 0)
    && (mask & CLOSE_EVENT != 0 <==> events & EPOLLHUP != 0 || events & EPOLLRDHUP != 0)
    && mask & !(IN_EVENT | OUT_EVENT | CLOSE_EVENT) == 0
  }

  /** `r` answers a report on `id`: an error is for every port, anything else for the port in turn. */
  ghost predicate Answers(l: Loop, id: Id, events: bv32, r: Record)
    requires id in l.infos
  {
    var d := l.infos[id].d;
    if events & EPOLLERR != 0 then r == Broadcast(id, Ports(d), ERROR_EVENT)
    else HasTurn(d) && r.Notified? && r.di == id && r.port == Turn(d) && Spells(r.events, events)
  }

  function Told(r: Record): (ps: set<Port>)
  {
    match r
    case Notified(_, p, _) => {p}
    case Broadcast(_, ps, _) => ps
    case _ => {}
  }

  lemma CountsIsMask(events: bv32)
    ensures Counts(events) <==> EventMask(events) != 0
    ensures Counts(events) && events & EPOLLERR != 0 ==> EventMask(events) == ERROR_EVENT
    ensures Counts(events) && events & EPOLLERR == 0 ==>
              EventMask(events) & ERROR_EVENT == 0 && Spells(EventMask(events), events)
  {
  }

  /** Tokens only fall, so the registration step of a report never registers anything. */
  lemma NothingRefused(l: Loop, l1: Loop, id: Id, accepted: bool)
    requires id in l.infos && id in l1.infos
    requires Mask(l1.infos[id].d) == Mask(l.infos[id].d) || Mask(l1.infos[id].d) == 0
    ensures
      var l' := UpdateEpoll(l1, Mask(l.infos[id].d), id, accepted);
      l'.infos == l1.infos && l'.log == l1.log
  {
  }

  lemma MaskFalls(d: Descriptor)
    requires Valid(d)
    ensures Mask(NotifyAll(d)) == Mask(d) || Mask(NotifyAll(d)) == 0
  {
  }

  /** An error reaches all ports. */
  lemma ErrorEffect(l: Loop, id: Id, mask: Events, accepted: bool)
    requires Inv(l) && id in l.infos
    ensures
      var d := l.infos[id].d;
      var l' := UpdateEpoll(NotifyAllPorts(l, id, mask), Mask(d), id, accepted);
      && l'.log == l.log + [Broadcast(id, Ports(d), mask)]
      && id in l'.infos && Pays(d, l'.infos[id].d, Ports(d))
  {
    var d := l.infos[id].d;
    assert DescriptorOk(d);
    hide Inv, NotifyAll, UpdateEpoll, Mask;
    BroadcastPays(d);
    MaskFalls(d);
    NothingRefused(l, NotifyAllPorts(l, id, mask), id, accepted);
  }

  /** Anything else reaches the port in turn. */
  lemma IoEffect(l: Loop, id: Id, mask: Events, accepted: bool)
    requires Inv(l) && id in l.infos && Mask(l.infos[id].d) != 0
    ensures
      var d, l' := l.infos[id].d, HandleIo(l, id, mask, accepted);
      && HasTurn(d) && l'.log == l.log + [Notified(id, Turn(d), mask)]
      && id in l'.infos && Pays(d, l'.infos[id].d, {Turn(d)})
  {
    var d := l.infos[id].d;
    assert DescriptorOk(d);
    LastMask(d);
    assert HasTurn(d);
    NotifyPays(d);
    hide Inv, NextNotify, UpdateEpoll, Mask, Pays;
    var (d', port) := NextNotify(d);
    var l1 := Check(Check(l, d.Single? || mask == IN_EVENT, ListeningReport), port != ILLEGAL_PORT, NoPort);
    NothingRefused(l, SetDescriptor(l1, id, d'), id, accepted);
  }

  /**
   * A report on a descriptor with a mask adds exactly the one record that answers it, and takes one token from just
   * the ports that are told; a report that does not count changes nothing.
   */
  lemma ReadyEffect(l: Loop, id: Id, events: bv32, accepted: bool)
    requires Inv(l) && id in l.infos && Mask(l.infos[id].d) != 0
    ensures
      var l' := HandleReady(l, id, events, accepted);
      if Counts(events) then
        exists r ::
          && l'.log == l.log + [r] && Answers(l, id, events, r)
          && id in l'.infos && Pays(l.infos[id].d, l'.infos[id].d, Told(r))
      else l' == l
  {
    CountsIsMask(events);
    hide Inv, EventMask, UpdateEpoll, HandleIo, NotifyAllPorts, Pays, Spells, Mask;
    var d, mask := l.infos[id].d, EventMask(events);
    if Counts(events) {
      if events & EPOLLERR != 0 {
        ErrorEffect(l, id, mask, accepted);
        assert Answers(l, id, events, Broadcast(id, Ports(d), mask));
      } else {
        IoEffect(l, id, mask, accepted);
        assert Answers(l, id, events, Notified(id, Turn(d), mask));
      }
    }
  }

  /** What the ports were told about descriptors, in order. */
  function Posts(log: seq<Record>): (ps: seq<Record>)
  {
    if log == [] then []
    else
      var r := log[|log| - 1];
      Posts(log[..|log| - 1]) + (if r.Notified? || r.Broadcast? then [r] else [])
  }

  lemma PostsStep(log: seq<Record>, r: Record)
    ensures Posts(log + [r]) == Posts(log) + (if r.Notified? || r.Broadcast? then [r] else [])
  {
    assert (log + [r])[..|log|] == log;
  }

  /** `rs` answers the reports of the batch that count, each once and in order; all as the batch found the loop. */
  ghost predicate AnswersAll(l: Loop, es: seq<Event>, rs: seq<Record>)
    requires Deliverable(l, es)
    decreases es
  {
    if es == [] then rs == []
    else
      assert forall i :: 0 <= i < |es[1..]| ==> es[1..][i] == es[i + 1];
      if es[0].report.DescriptorReady? && Counts(es[0].report.events) then
        rs != [] && Answers(l, es[0].report.di, es[0].report.events, rs[0]) && AnswersAll(l, es[1..], rs[1..])
      else AnswersAll(l, es[1..], rs)
  }

  /** The answers depend on no more than the descriptors that the batch names. */
  lemma {:induction false} AnswersFrame(l: Loop, l1: Loop, es: seq<Event>, rs: seq<Record>)
    requires Deliverable(l, es) && Deliverable(l1, es) && AnswersAll(l1, es, rs)
    requires forall i :: 0 <= i < |es| && es[i].report.DescriptorReady? ==>
               l1.infos[es[i].report.di] == l.infos[es[i].report.di]
    ensures AnswersAll(l, es, rs)
    decreases es
  {
    if es != [] {
      assert forall i :: 0 <= i < |es[1..]| ==> es[1..][i] == es[i + 1];
      hide Counts, Spells, HasTurn, Turn, Mask;
      if es[0].report.DescriptorReady? && Counts(es[0].report.events) {
        AnswersFrame(l, l1, es[1..], rs[1..]);
      } else {
        AnswersFrame(l, l1, es[1..], rs);
      }
    }
  }

  /** One event of a batch: its own answer, and the descriptors of the others untouched. */
  lemma EventEffect(l: Loop, es: seq<Event>, now: int)
    requires Inv(l) && es != [] && Deliverable(l, es) && OncePerSource(es)
    ensures
      var e, l1 := es[0].report, HandleEvent(l, es[0], now);
      && (if e.DescriptorReady? && Counts(e.events) then
            exists r :: Posts(l1.log) == Posts(l.log) + [r] && Answers(l, e.di, e.events, r)
          else Posts(l1.log) == Posts(l.log))
      && forall i :: 0 < i < |es| && es[i].report.DescriptorReady? ==>
           es[i].report.di in l1.infos && l1.infos[es[i].report.di] == l.infos[es[i].report.di]
  {
    hide Inv, HandleReady, Counts, Mask, Spells, HasTurn, Turn, Pays, ListeningReportOk;
    match es[0].report {
      case InterruptReady =>
      case TimerReady =>
        if l.timers != [] {
          PostsStep(l.log, TimerFired(l.timers[0].value, l.timers[0].priority, now));
        }
      case DescriptorReady(id, events) =>
        ReadyKeepsInv(l, id, events, es[0].accepted);
        ReadyEffect(l, id, events, es[0].accepted);
        if Counts(events) {
          var l1 := HandleReady(l, id, events, es[0].accepted);
          var r :| l1.log == l.log + [r] && Answers(l, id, events, r);
          PostsStep(l.log, r);
        }
    }
  }

  lemma {:induction false} ReportsAnswered(l: Loop, es: seq<Event>, now: int)
    requires Inv(l) && Deliverable(l, es) && OncePerSource(es)
    ensures exists rs :: AnswersAll(l, es, rs) && Posts(HandleReports(l, es, now).log) == Posts(l.log) + rs
    decreases es
  {
    hide Inv, HandleEvent, Counts, Mask, Answers, Posts, ListeningReportOk;
    if es == [] {
      assert AnswersAll(l, es, []) && Posts(l.log) == Posts(l.log) + [];
    } else {
      var e, l1 := es[0].report, HandleEvent(l, es[0], now);
      EventKeepsInv(l, es, now);
      EventEffect(l, es, now);
      assert forall i :: 0 <= i < |es[1..]| ==> es[1..][i] == es[i + 1];
      ReportsAnswered(l1, es[1..], now);
      var rs :| AnswersAll(l1, es[1..], rs) && Posts(HandleReports(l1, es[1..], now).log) == Posts(l1.log) + rs;
      AnswersFrame(l, l1, es[1..], rs);
      if e.DescriptorReady? && Counts(e.events) {
        var r :| Posts(l1.log) == Posts(l.log) + [r] && Answers(l, e.di, e.events, r);
        assert ([r] + rs)[1..] == rs;
        assert AnswersAll(l, es, [r] + rs);
        assert Posts(l.log) + [r] + rs == Posts(l.log) + ([r] + rs);
      }
    }
  }

  /**
   * The notifications of a batch are, in order, the answers to its reports that count, each report told to the port
   * in turn with its own bits or, an error, to all ports.
   */
  lemma BatchIsAnswered(l: Loop, es: seq<Event>, now: int)
    requires Inv(l) && BatchLegal(l, es, now)
    ensures Deliverable(l, es)
    ensures exists rs :: AnswersAll(l, es, rs) && Posts(HandleReports(l, es, now).log) == Posts(l.log) + rs
  {
    LegalIsDeliverable(l, es, now);
    ReportsAnswered(l, es, now);
  }
}
