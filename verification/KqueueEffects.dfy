/** What the kqueue loop tells the ports about a batch of events. */
module KqueueEffects {
  import opened Flags
  import opened DescriptorSpec
  import opened DescriptorEffects
  import opened KqueueLoop
  import opened KqueueProofs
  import K = Kqueue
  import E = EpollSpec
  import P = EpollEffects

  /** The bits of a notification: the direction of the filter, and a close when the reading side has ended. */
  ghost predicate Spells(mask: Events, listening: bool, write: bool, eof: bool)
  {
    && (mask & IN_EVENT != 0 <==> !write && !(listening && eof))
    && (mask & OUT_EVENT != 0 <==> write)
    && (mask & CLOSE_EVENT != 0 <==> !write && eof)
    && mask & !(IN_EVENT | OUT_EVENT | CLOSE_EVENT) == 0
  }

  /** `r` answers event `e`: an end with an error is for every port, anything else for the port in turn. */
  ghost predicate Answers(l: Loop, e: Report, r: E.Record)
    requires e.Ready? && e.id in l.objects
  {
    var d := l.objects[e.id].d;
    if e.eof && e.error then r == E.Broadcast(e.id, Ports(d), ERROR_EVENT)
    else
      && HasTurn(d) && r.Notified? && r.di == e.id && r.port == Turn(d)
      && Spells(r.events, d.Multiple?, e.write, e.eof)
  }

  lemma MaskSpells(listening: bool, write: bool, eof: bool, error: bool)
    ensures
      var mask := GetEvents(listening, write, eof, error);
      if eof && error then mask == ERROR_EVENT else Spells(mask, listening, write, eof)
  {
  }

  /** Tokens only fall, so the registration step of an event never registers anything. */
  lemma NothingRefused(l: Loop, oldMask: Events, id: Id, accepted: bool)
    requires id in l.objects && (Mask(l.objects[id].d) == oldMask || Mask(l.objects[id].d) == 0)
    ensures
      var l' := Update(l, oldMask, id, accepted);
      l'.log == l.log && l'.objects[id].d == l.objects[id].d
  {
  }

  lemma MaskFalls(d: Descriptor)
    requires Valid(d)
    ensures Mask(NotifyAll(d)) == Mask(d) || Mask(NotifyAll(d)) == 0
    ensures Mask(NextNotify(d).0) == Mask(d) || Mask(NextNotify(d).0) == 0
  {
  }

  lemma ServedAnswers(l: Loop, e: Report)
    requires e.Ready? && e.id in l.objects && Valid(l.objects[e.id].d) && HasTurn(l.objects[e.id].d)
    ensures
      var d := l.objects[e.id].d;
      var (d', rs) := Served(d, e);
      && |rs| == 1 && Answers(l, e, rs[0]) && Pays(d, d', P.Told(rs[0])) && d'.Single? == d.Single?
      && (Mask(d') == Mask(d) || Mask(d') == 0) && NextNotify(d).1 != ILLEGAL_PORT
  {
    var d := l.objects[e.id].d;
    MaskSpells(d.Multiple?, e.write, e.eof, e.error);
    hide GetEvents, NextNotify, NotifyAll, Mask, Spells, Pays;
    MaskFalls(d);
    NotifyPays(d);
    BroadcastPays(d);
    NoIllegal(d);
  }

  lemma NoIllegal(d: Descriptor)
    requires Valid(d)
    ensures ILLEGAL_PORT !in Ports(d)
  {
  }

  lemma NotifiableHasTurn(l: Loop, id: Id)
    requires Inv(l) && id in l.objects
    ensures Valid(l.objects[id].d) && (K.Notifiable(l.objects[id].d) ==> HasTurn(l.objects[id].d))
  {
    assert InOrder(l, id);
  }

  /**
   * An event on a live descriptor that has a port for it adds exactly the one record that answers it, and takes one
   * token from just the ports that are told.
   */
  lemma ReadyEffect(l: Loop, e: Report)
    requires Inv(l) && e.Ready? && e.id in l.objects && K.Notifiable(l.objects[e.id].d)
    requires l.objects[e.id].d.Multiple? ==> !e.write
    ensures
      var l' := HandleReady(l, e);
      exists r ::
        && l'.log == l.log + [r] && Answers(l, e, r)
        && e.id in l'.objects && Pays(l.objects[e.id].d, l'.objects[e.id].d, P.Told(r))
  {
    hide Inv, K.Notifiable, Update, HandleReady, Served, Mask, Pays, Answers, HasTurn, Valid, ClosesListening;
    NotifiableHasTurn(l, e.id);
    ServedAnswers(l, e);
    HandleReadyIs(l, e);
    var d, l1 := l.objects[e.id].d, Check(l, !ClosesListening(l, e), ListeningReport);
    var (d', rs) := Served(d, e);
    var l2 := Logged(SetDescriptor(l1, e.id, d'), rs);
    NothingRefused(l2, Mask(d), e.id, e.accepted);
    assert rs == [rs[0]];
  }

  /** `rs` answers the events of the batch, each once and in order; all as the batch found the loop. */
  ghost predicate AnswersAll(l: Loop, es: seq<Report>, rs: seq<E.Record>)
    requires forall e :: e in es && e.Ready? ==> e.id in l.objects
    decreases es
  {
    if es == [] then rs == []
    else if es[0].Interrupt? then AnswersAll(l, es[1..], rs)
    else rs != [] && Answers(l, es[0], rs[0]) && AnswersAll(l, es[1..], rs[1..])
  }

  /** The descriptor has the same ports, and the same one in turn. */
  ghost predicate SameTurn(d: Descriptor, d1: Descriptor)
  {
    d1.Single? == d.Single? && Ports(d1) == Ports(d) && HasTurn(d) && HasTurn(d1) && Turn(d1) == Turn(d)
  }

  lemma {:induction false} AnswersFrame(l: Loop, l1: Loop, es: seq<Report>, rs: seq<E.Record>)
    requires forall e :: e in es && e.Ready? ==>
               e.id in l.objects && e.id in l1.objects && SameTurn(l.objects[e.id].d, l1.objects[e.id].d)
    requires AnswersAll(l1, es, rs)
    ensures AnswersAll(l, es, rs)
    decreases es
  {
    hide HasTurn, Turn, Spells;
    if es != [] {
      assert es[0] in es;
      if es[0].Interrupt? {
        AnswersFrame(l, l1, es[1..], rs);
      } else {
        AnswersFrame(l, l1, es[1..], rs[1..]);
      }
    }
  }

  lemma PayingKeepsTurn(d: Descriptor, d': Descriptor, ps: set<Port>)
    requires d.Single? && HasTurn(d) && Pays(d, d', ps)
    ensures SameTurn(d, d')
  {
    assert d.port in Ports(d');
  }

  lemma AllLive(l: Loop, es: seq<Report>)
    requires Deliverable(l, es)
    ensures forall e :: e in es && e.Ready? ==> e.id in l.objects && K.Notifiable(l.objects[e.id].d)
  {
    hide K.Notifiable, Balanced, OncePerFilter, Again;
    forall e | e in es && e.Ready?
      ensures e.id in l.objects && K.Notifiable(l.objects[e.id].d)
    {
      var i :| 0 <= i < |es| && es[i] == e;
      assert DeliverableAt(l, es, i);
    }
  }

  /** After one event of a batch the others still find the same port in turn. */
  lemma OthersKeepTurn(l: Loop, es: seq<Report>, e: Report)
    requires es != [] && es[0].Ready? && Inv(l) && Deliverable(l, es) && e in es[1..] && e.Ready?
    ensures
      var l1 := HandleReady(l, es[0]);
      e.id in l.objects && e.id in l1.objects && SameTurn(l.objects[e.id].d, l1.objects[e.id].d)
  {
    hide Inv, HandleReady, K.Notifiable, Balanced, SameElsewhere, OnlyLogged, Pays, SameTurn, ClosesListening;
    var i :| 0 <= i < |es[1..]| && es[1..][i] == e;
    assert es[i + 1] == e && DeliverableAt(l, es, 0) && DeliverableAt(l, es, i + 1);
    NotifiableHasTurn(l, e.id);
    if e.id == es[0].id {
      assert Again(es, 0);
      ReadyEffect(l, es[0]);
      var l1 := HandleReady(l, es[0]);
      var r :| e.id in l1.objects && Pays(l.objects[e.id].d, l1.objects[e.id].d, P.Told(r));
      PayingKeepsTurn(l.objects[e.id].d, l1.objects[e.id].d, P.Told(r));
    } else {
      OthersUntouched(l, es, e.id);
      ItsOwnTurn(l.objects[e.id].d);
    }
  }

  lemma ItsOwnTurn(d: Descriptor)
    requires HasTurn(d)
    ensures SameTurn(d, d)
  {
  }

  lemma OthersUntouched(l: Loop, es: seq<Report>, id: Id)
    requires es != [] && es[0].Ready? && Inv(l) && Deliverable(l, es) && id in l.objects && id != es[0].id
    ensures id in HandleReady(l, es[0]).objects && HandleReady(l, es[0]).objects[id] == l.objects[id]
  {
    hide Inv, HandleReady, K.Notifiable, Balanced, SameElsewhere, OnlyLogged, ClosesListening, OncePerFilter, Again;
    assert DeliverableAt(l, es, 0);
    var slack := if l.objects[es[0].id].d.Single? && Again(es, 0) then 1 else 0;
    if l.objects[es[0].id].d.Multiple? {
      ListeningBalance(l, es[0].id);
    }
    ReadyKeepsInv(l, es[0], slack);
  }

  lemma {:induction false} ReportsAnswered(l: Loop, es: seq<Report>)
    requires Inv(l) && Deliverable(l, es)
    ensures forall e :: e in es && e.Ready? ==> e.id in l.objects
    ensures exists rs :: AnswersAll(l, es, rs) && P.Posts(HandleReports(l, es).log) == P.Posts(l.log) + rs
    decreases es
  {
    hide Inv, Deliverable, HandleReady, Answers, P.Posts, SameTurn, Pays;
    AllLive(l, es);
    if es == [] {
      assert AnswersAll(l, es, []) && P.Posts(l.log) == P.Posts(l.log) + [];
    } else if es[0].Interrupt? {
      InterruptStaysDeliverable(l, es);
      ReportsAnswered(l, es[1..]);
    } else {
      var l1 := HandleReady(l, es[0]);
      OthersStayDeliverable(l, es);
      ReportsAnswered(l1, es[1..]);
      var rs :| AnswersAll(l1, es[1..], rs) && P.Posts(HandleReports(l1, es[1..]).log) == P.Posts(l1.log) + rs;
      forall e | e in es[1..] && e.Ready?
        ensures e.id in l.objects && e.id in l1.objects && SameTurn(l.objects[e.id].d, l1.objects[e.id].d)
      {
        OthersKeepTurn(l, es, e);
      }
      AnswersFrame(l, l1, es[1..], rs);
      var r := FirstAnswer(l, es);
      assert ([r] + rs)[1..] == rs;
      assert AnswersAll(l, es, [r] + rs);
      assert P.Posts(l.log) + [r] + rs == P.Posts(l.log) + ([r] + rs);
    }
  }

  lemma FirstAnswer(l: Loop, es: seq<Report>) returns (r: E.Record)
    requires es != [] && es[0].Ready? && Inv(l) && Deliverable(l, es)
    ensures es[0].id in l.objects && Answers(l, es[0], r)
    ensures P.Posts(HandleReady(l, es[0]).log) == P.Posts(l.log) + [r]
  {
    hide Inv, HandleReady, K.Notifiable, Balanced, Pays, P.Posts, Spells;
    assert DeliverableAt(l, es, 0);
    ReadyEffect(l, es[0]);
    r :| HandleReady(l, es[0]).log == l.log + [r] && Answers(l, es[0], r);
    P.PostsStep(l.log, r);
  }

  /**
   * The notifications of a batch are, in order, the answers to its events, also when two of them are for the same
   * descriptor.
   */
  lemma BatchIsAnswered(l: Loop, es: seq<Report>)
    requires Inv(l) && BatchLegal(l, es)
    ensures forall e :: e in es && e.Ready? ==> e.id in l.objects
    ensures exists rs :: AnswersAll(l, es, rs) && P.Posts(HandleReports(l, es).log) == P.Posts(l.log) + rs
  {
    hide Inv;
    LegalIsDeliverable(l, es);
    ReportsAnswered(l, es);
  }

  /** A legal event is for a direction in the descriptor's mask, and its answer tells of no other one. */
  lemma ReportsAreWanted(l: Loop, k: Key, e: Report, r: E.Record)
    requires Inv(l) && k in l.kernel && e.Ready? && e.id == l.kernel[k] && e.write == k.write
    ensures e.id in l.objects
    ensures Mask(l.objects[e.id].d) & (if e.write then OUT_EVENT else IN_EVENT) != 0
    ensures Answers(l, e, r) && r.Notified? ==> r.events & (IN_EVENT | OUT_EVENT) & !Mask(l.objects[e.id].d) == 0
  {
    RegisteredIsLive(l, k);
    assert InOrder(l, e.id);
    hide Linked, Carried, Balanced, Mask;
    var mask := Mask(l.objects[e.id].d);
    assert K.FiltersOf(mask) == WatchOf(l, e.id).kernel;
    assert Key(k.fd, k.write) == k;
    if Answers(l, e, r) && r.Notified? {
      SpelledOneWay(r.events, mask, l.objects[e.id].d.Multiple?, e.write, e.eof);
    }
  }

  lemma SpelledOneWay(events: Events, mask: Events, listening: bool, write: bool, eof: bool)
    requires Spells(events, listening, write, eof) && mask & (if write then OUT_EVENT else IN_EVENT) != 0
    ensures events & (IN_EVENT | OUT_EVENT) & !mask == 0
  {
  }
}
