/** Timers in every run of the Linux event loop: what is queued, what the timerfd is set to, what is posted and when. */
module EpollTimers {
  import opened Flags
  import opened DescriptorSpec
  import opened EpollSpec
  import opened EpollProofs
  import Heap = HeapSpec
  import Fronts = HeapFronts

  const NONE := -1

  /** The records of settings and posts, in order. */
  function TimerRecords(log: seq<Record>): (rs: seq<Record>)
  {
    if log == [] then []
    else
      var rs, r := TimerRecords(log[..|log| - 1]), log[|log| - 1];
      if r.TimerSet? || r.TimerFired? then rs + [r] else rs
  }

  function PendingAfter(t: int, r: Record, p: Port): (t': int)
  {
    match r
    case TimerSet(port, deadline) => if port != p then t else if deadline < 0 then NONE else deadline
    case TimerFired(port, _, _) => if port == p then NONE else t
    case _ => t
  }

  /**
   * The deadline that port `p` last asked for and that was neither cancelled nor posted since; NONE if there is none.
   */
  function PendingDeadline(log: seq<Record>, p: Port): (t: int)
  {
    if log == [] then NONE else PendingAfter(PendingDeadline(log[..|log| - 1], p), log[|log| - 1], p)
  }

  /** Every post consumed the pending setting of its port, and not before that deadline. */
  ghost predicate Justified(log: seq<Record>)
  {
    forall i :: 0 <= i < |log| && log[i].TimerFired? ==>
      PendingDeadline(log[..i], log[i].port) == log[i].deadline && 0 <= log[i].deadline <= log[i].now
  }

  /** The queue holds exactly the pending settings, one entry for each port. */
  ghost predicate QueueMatches(timers: seq<Heap.Entry<Port>>, log: seq<Record>)
  {
    && Heap.Unique(timers)
    && (forall e :: e in timers ==> 0 <= e.priority && PendingDeadline(log, e.value) == e.priority)
    && (forall p :: PendingDeadline(log, p) >= 0 ==> Heap.Entry(PendingDeadline(log, p), p) in timers)
  }

  ghost predicate TimersOk(l: Loop)
  {
    QueueMatches(l.timers, TimerRecords(l.log)) && l.armed == TimerValue(l.timers) && Justified(TimerRecords(l.log))
  }

  function Millis(t: Timespec): (ms: int)
  {
    t.sec * 1000 + t.nsec / 1000000
  }

  lemma SplitIsExact(millis: nat)
    ensures
      var t := Timespec(millis / 1000, (millis % 1000) * 1000000);
      Millis(t) == millis && 0 <= t.nsec < 1000000000 && (t == Timespec(0, 0) <==> millis == 0)
  {
  }

  /**
   * In heap order the timerfd holds exactly the earliest queued deadline. All zero, which disarms it, is held
   * when the queue is empty and also when that deadline is 0.
   */
  lemma ArmedForMinimum(l: Loop)
    requires TimersOk(l) && Heap.Heap(l.timers)
    ensures 0 <= l.armed.nsec < 1000000000
    ensures forall e :: e in l.timers ==> Millis(l.armed) <= e.priority
    ensures l.timers != [] ==> exists e :: e in l.timers && e.priority == Millis(l.armed)
    ensures l.armed == Timespec(0, 0) <==> l.timers == [] || l.timers[0].priority == 0
  {
    if l.timers != [] {
      assert l.timers[0] in l.timers;
      SplitIsExact(l.timers[0].priority);
      forall e | e in l.timers
        ensures l.timers[0].priority <= e.priority
      {
        var i :| 0 <= i < |l.timers| && l.timers[i] == e;
        Heap.HeapMinimum(l.timers, i);
      }
    }
  }

  // ---------- steps that leave the timers alone ----------

  ghost predicate TimerFrame(l: Loop, l': Loop)
  {
    l'.timers == l.timers && l'.armed == l.armed && TimerRecords(l'.log) == TimerRecords(l.log)
  }

  lemma TimerRecordsStep(log: seq<Record>, r: Record)
    ensures TimerRecords(log + [r]) ==
            if r.TimerSet? || r.TimerFired? then TimerRecords(log) + [r] else TimerRecords(log)
  {
    assert (log + [r])[..|log|] == log;
  }

  lemma PendingStep(log: seq<Record>, r: Record, p: Port)
    ensures PendingDeadline(log + [r], p) == PendingAfter(PendingDeadline(log, p), r, p)
  {
    assert (log + [r])[..|log|] == log;
  }

  lemma JustifiedStep(log: seq<Record>, r: Record)
    requires Justified(log)
    requires r.TimerFired? ==> PendingDeadline(log, r.port) == r.deadline && 0 <= r.deadline <= r.now
    ensures Justified(log + [r])
  {
    forall i | 0 <= i <= |log|
      ensures (log + [r])[..i] == log[..i]
    {
    }
    assert log[..|log|] == log;
  }

  lemma UpdateEpollFrame(l: Loop, oldMask: Events, id: Id, accepted: bool)
    requires id in l.infos
    ensures TimerFrame(l, UpdateEpoll(l, oldMask, id, accepted))
  {
    TimerRecordsStep(l.log, Broadcast(id, Ports(l.infos[id].d), CLOSE_EVENT));
  }

  lemma IoFrame(l: Loop, id: Id, mask: Events, accepted: bool)
    requires id in l.infos
    ensures TimerFrame(l, HandleIo(l, id, mask, accepted))
  {
    hide UpdateEpoll, Mask, NextNotify;
    var d := l.infos[id].d;
    var (d', port) := NextNotify(d);
    var l1 := Check(Check(l, d.Single? || mask == IN_EVENT, ListeningReport), port != ILLEGAL_PORT, NoPort);
    var l2 := SetDescriptor(l1, id, d');
    UpdateEpollFrame(l2, Mask(d), id, accepted);
    TimerRecordsStep(UpdateEpoll(l2, Mask(d), id, accepted).log, Notified(id, port, mask));
  }

  lemma ReadyFrame(l: Loop, id: Id, events: bv32, accepted: bool)
    ensures TimerFrame(l, HandleReady(l, id, events, accepted))
  {
    hide UpdateEpoll, Mask, HandleIo;
    if id in l.infos {
      var d, mask := l.infos[id].d, EventMask(events);
      if mask & ERROR_EVENT != 0 {
        TimerRecordsStep(l.log, Broadcast(id, Ports(d), mask));
        UpdateEpollFrame(NotifyAllPorts(l, id, mask), Mask(d), id, accepted);
      } else if mask != 0 {
        IoFrame(l, id, mask, accepted);
      }
    }
  }

  lemma CloseFrame(l: Loop, id: Id, port: Port, closeSafe: bool, accepted: bool)
    requires id in l.infos
    ensures TimerFrame(l, HandleClose(l, id, port, closeSafe, accepted))
  {
    hide UpdateEpoll, Mask, RemovePort;
    var l1 := WithoutPort(l, id, port);
    UpdateEpollFrame(l1, Mask(l.infos[id].d), id, accepted);
    TimerRecordsStep(UpdateEpoll(l1, Mask(l.infos[id].d), id, accepted).log, Destroyed(port));
  }

  lemma ReturnFrame(l: Loop, id: Id, port: Port, count: nat, accepted: bool)
    requires id in l.infos
    ensures TimerFrame(l, HandleReturn(l, id, port, count, accepted))
  {
    hide UpdateEpoll, Mask, ReturnTokensTo;
    TimerRecordsStep(l.log, Returned(id, port, count));
    UpdateEpollFrame(WithTokens(l, id, port, count), Mask(l.infos[id].d), id, accepted);
  }

  lemma SetMaskFrame(l: Loop, id: Id, port: Port, events: Events, accepted: bool)
    requires id in l.infos
    ensures TimerFrame(l, HandleSetMask(l, id, port, events, accepted))
  {
    hide UpdateEpoll, Mask, SetPortAndMask;
    TimerRecordsStep(l.log, Attached(id, port));
    assert l.log + [] == l.log;
    UpdateEpollFrame(WithMask(l, id, port, events), Mask(l.infos[id].d), id, accepted);
  }

  lemma SocketFrame(l: Loop, m: Message)
    requires m.SocketMessage?
    ensures TimerFrame(l, HandleSocket(l, m))
  {
    hide HandleClose, HandleReturn, HandleSetMask, Decode;
    if m.fd != -1 {
      var (l1, id) := GetDescriptorInfo(l, m.fd, IsListening(m.data));
      if id in l1.infos {
        match Decode(m.data) {
          case Close => CloseFrame(l1, id, m.port, m.closeSafe, m.accepted);
          case ReturnTokens(count) => ReturnFrame(l1, id, m.port, count, m.accepted);
          case SetEventMask(events) => SetMaskFrame(l1, id, m.port, events, m.accepted);
          case _ =>
        }
      }
    }
  }

  // ---------- steps of the timer queue ----------

  lemma SetMatches(timers: seq<Heap.Entry<Port>>, log: seq<Record>, port: Port, timeout: int)
    requires QueueMatches(timers, log)
    ensures QueueMatches(Heap.UpdateTimeout(timers, port, timeout), log + [TimerSet(port, timeout)])
  {
    var r := TimerSet(port, timeout);
    Heap.UpdateTimeoutEntries(timers, port, timeout);
    forall p
      ensures PendingDeadline(log + [r], p) == PendingAfter(PendingDeadline(log, p), r, p)
    {
      PendingStep(log, r, p);
    }
  }

  lemma FiredMatches(timers: seq<Heap.Entry<Port>>, log: seq<Record>, r: Record)
    requires QueueMatches(timers, log) && timers != [] && r.TimerFired? && r.port == timers[0].value
    ensures QueueMatches(Heap.RemoveAt(timers, 0), log + [r])
  {
    Heap.RemoveAtEntries(timers, 0);
    assert timers[0] in timers;
    forall p
      ensures PendingDeadline(log + [r], p) == PendingAfter(PendingDeadline(log, p), r, p)
    {
      PendingStep(log, r, p);
    }
    forall e | e in timers && e != timers[0]
      ensures e.value != r.port
    {
      assert PendingDeadline(log, e.value) == e.priority;
    }
  }

  lemma TimerMessageOk(l: Loop, port: Port, timeout: int)
    requires TimersOk(l)
    ensures TimersOk(HandleMessage(l, TimerMessage(port, timeout)))
  {
    TimerRecordsStep(l.log, TimerSet(port, timeout));
    SetMatches(l.timers, TimerRecords(l.log), port, timeout);
    JustifiedStep(TimerRecords(l.log), TimerSet(port, timeout));
  }

  lemma TimerReadyOk(l: Loop, now: int)
    requires TimersOk(l) && Expired(l.armed, now)
    ensures TimersOk(HandleTimer(l, now))
  {
    var first := l.timers[0];
    assert first in l.timers;
    SplitIsExact(first.priority);
    var r := TimerFired(first.value, first.priority, now);
    TimerRecordsStep(l.log, r);
    FiredMatches(l.timers, TimerRecords(l.log), r);
    JustifiedStep(TimerRecords(l.log), r);
  }

  // ---------- runs ----------

  lemma {:induction false} ReportsKeepTimers(l: Loop, es: seq<Event>, now: int)
    requires TimersOk(l) && OncePerSource(es)
    requires forall i :: 0 <= i < |es| && es[i].report.TimerReady? ==> Expired(l.armed, now)
    ensures TimersOk(HandleReports(l, es, now))
    decreases es
  {
    if es != [] {
      var l1 := HandleEvent(l, es[0], now);
      match es[0].report {
        case InterruptReady =>
        case TimerReady => TimerReadyOk(l, now);
        case DescriptorReady(id, events) => ReadyFrame(l, id, events, es[0].accepted);
      }
      assert OncePerSource(es[1..]);
      assert forall i :: 0 <= i < |es[1..]| ==> es[1..][i] == es[i + 1];
      ReportsKeepTimers(l1, es[1..], now);
    }
  }

  lemma {:induction false} MessagesKeepTimers(l: Loop, ms: seq<Message>)
    requires TimersOk(l)
    ensures TimersOk(HandleMessages(l, ms))
    decreases ms
  {
    if ms != [] {
      match ms[0] {
        case TimerMessage(port, timeout) => TimerMessageOk(l, port, timeout);
        case ShutdownMessage =>
        case SocketMessage(_, _, _, _, _) => SocketFrame(l, ms[0]);
      }
      MessagesKeepTimers(HandleMessage(l, ms[0]), ms[1..]);
    }
  }

  /**
   * In every run the queue holds exactly the pending settings, the timerfd shows its front, and every post
   * consumed the pending setting of its port at or after its deadline: one setting gives at most one post.
   */
  lemma {:induction false} EveryRunKeepsTimers(l: Loop, rs: seq<Round>)
    requires TimersOk(l) && RunLegal(l, rs)
    ensures TimersOk(Poll(l, rs))
    decreases rs
  {
    if rs != [] && !l.shutdown {
      ReportsKeepTimers(l, rs[0].events, rs[0].now);
      MessagesKeepTimers(HandleReports(l, rs[0].events, rs[0].now), rs[0].messages);
      EveryRunKeepsTimers(HandleRound(l, rs[0]), rs[1..]);
    }
  }

  /** No cancellation in the run moves a later deadline below an earlier one. */
  ghost predicate MessagesFit(l: Loop, ms: seq<Message>)
    decreases ms
  {
    ms == [] ||
    (&& (ms[0].TimerMessage? && ms[0].timeout < 0 && Heap.HasValue(l.timers, ms[0].port) ==>
           Heap.LastFitsAt(l.timers, Heap.OffsetOf(l.timers, ms[0].port)))
     && MessagesFit(HandleMessage(l, ms[0]), ms[1..]))
  }

  ghost predicate RunFits(l: Loop, rs: seq<Round>)
    decreases rs
  {
    rs == [] || l.shutdown ||
    (&& (InterruptSeen(rs[0].events) ==> MessagesFit(HandleReports(l, rs[0].events, rs[0].now), rs[0].messages))
     && RunFits(HandleRound(l, rs[0]), rs[1..]))
  }

  /** The queue is in heap order before and after every message. */
  ghost predicate HeapThroughMessages(l: Loop, ms: seq<Message>)
    decreases ms
  {
    Heap.Heap(l.timers) && (ms != [] ==> HeapThroughMessages(HandleMessage(l, ms[0]), ms[1..]))
  }

  /** The queue is in heap order at every point of a run. */
  ghost predicate HeapThroughout(l: Loop, rs: seq<Round>)
    decreases rs
  {
    && Heap.Heap(l.timers)
    && (rs != [] && !l.shutdown ==>
          && (InterruptSeen(rs[0].events) ==>
                HeapThroughMessages(HandleReports(l, rs[0].events, rs[0].now), rs[0].messages))
          && HeapThroughout(HandleRound(l, rs[0]), rs[1..]))
  }

  lemma {:induction false} ReportsKeepHeap(l: Loop, es: seq<Event>, now: int)
    requires Heap.Heap(l.timers)
    ensures Heap.Heap(HandleReports(l, es, now).timers)
    decreases es
  {
    if es != [] {
      match es[0].report {
        case InterruptReady =>
        case TimerReady => if l.timers != [] { Heap.RemoveAtKeepsHeapIff(l.timers, 0); }
        case DescriptorReady(id, events) => ReadyFrame(l, id, events, es[0].accepted);
      }
      ReportsKeepHeap(HandleEvent(l, es[0], now), es[1..], now);
    }
  }

  lemma {:induction false} MessagesKeepHeapIff(l: Loop, ms: seq<Message>)
    requires Heap.Heap(l.timers)
    ensures HeapThroughMessages(l, ms) <==> MessagesFit(l, ms)
    ensures MessagesFit(l, ms) ==> Heap.Heap(HandleMessages(l, ms).timers)
    decreases ms
  {
    if ms != [] {
      match ms[0] {
        case TimerMessage(port, timeout) => Heap.UpdateTimeoutKeepsHeapIff(l.timers, port, timeout);
        case ShutdownMessage =>
        case SocketMessage(_, _, _, _, _) => SocketFrame(l, ms[0]);
      }
      if Heap.Heap(HandleMessage(l, ms[0]).timers) {
        MessagesKeepHeapIff(HandleMessage(l, ms[0]), ms[1..]);
      }
    }
  }

  /** A run keeps the queue in heap order throughout exactly when every cancellation in it leaves a fitting gap. */
  lemma {:induction false} HeapThroughoutIffRunFits(l: Loop, rs: seq<Round>)
    requires Heap.Heap(l.timers)
    ensures HeapThroughout(l, rs) <==> RunFits(l, rs)
    decreases rs
  {
    if rs != [] && !l.shutdown {
      var l1 := HandleReports(l, rs[0].events, rs[0].now);
      ReportsKeepHeap(l, rs[0].events, rs[0].now);
      MessagesKeepHeapIff(l1, rs[0].messages);
      hide HeapThroughMessages, MessagesFit, HandleReports, HandleMessages;
      if Heap.Heap(HandleRound(l, rs[0]).timers) {
        HeapThroughoutIffRunFits(HandleRound(l, rs[0]), rs[1..]);
      }
    }
  }

  /** In every run whose cancellations fit, the timerfd is at every round armed for the earliest queued deadline. */
  lemma {:induction false} FittingRunIsArmedForMinimum(l: Loop, rs: seq<Round>)
    requires TimersOk(l) && RunLegal(l, rs) && Heap.Heap(l.timers) && RunFits(l, rs)
    ensures var l' := Poll(l, rs); Heap.Heap(l'.timers) && forall e :: e in l'.timers ==> Millis(l'.armed) <= e.priority
    decreases rs
  {
    if rs != [] && !l.shutdown {
      var l1 := HandleReports(l, rs[0].events, rs[0].now);
      ReportsKeepTimers(l, rs[0].events, rs[0].now);
      MessagesKeepTimers(l1, rs[0].messages);
      ReportsKeepHeap(l, rs[0].events, rs[0].now);
      MessagesKeepHeapIff(l1, rs[0].messages);
      FittingRunIsArmedForMinimum(HandleRound(l, rs[0]), rs[1..]);
    } else {
      ArmedForMinimum(l);
    }
  }

  /**
   * The timer is armed for the earliest deadline now and after every later sequence of settings and expiries exactly
   * when the queue is in heap order; a cancellation is harmless exactly when its gap fits.
   */
  lemma ArmedForEarliestIff(l: Loop)
    requires TimersOk(l)
    ensures Heap.Heap(l.timers) <==>
            forall es :: Fronts.EventsOk(es) ==> ArmedForEarliest(Fronts.Continue(l.timers, es))
  {
    Fronts.FrontStaysMinimumIff(l.timers);
    forall h: seq<Heap.Entry<Port>>
      ensures ArmedForEarliest(h) <==> Fronts.FrontIsMinimum(h)
    {
      ArmedForFront(h);
    }
  }

  ghost predicate ArmedForEarliest(timers: seq<Heap.Entry<Port>>)
  {
    forall i :: 0 <= i < |timers| ==> Millis(TimerValue(timers)) <= timers[i].priority
  }

  lemma ArmedForFront(timers: seq<Heap.Entry<Port>>)
    ensures ArmedForEarliest(timers) <==> Fronts.FrontIsMinimum(timers)
  {
    assert timers != [] ==> Millis(TimerValue(timers)) == timers[0].priority;
  }

  lemma StartTimersOk()
    ensures TimersOk(Start()) && Heap.Heap(Start().timers)
  {
  }

  // ---------- a missed deadline ----------

  /** The messages that set the timers of a queue from entry `k` on, in its order. */
  function Settings(h: seq<Heap.Entry<Port>>, k: nat): (ms: seq<Message>)
    requires k <= |h|
    decreases |h| - k
  {
    if k == |h| then [] else [TimerMessage(h[k].value, h[k].priority)] + Settings(h, k + 1)
  }

  /** Every queue in heap order comes about by setting its timers in order. */
  lemma {:induction false} SettingInOrder(l: Loop, h: seq<Heap.Entry<Port>>, k: nat)
    requires Heap.Heap(h) && Heap.Unique(h) && (forall i :: 0 <= i < |h| ==> h[i].priority >= 0)
    requires k <= |h| && l.timers == h[..k]
    ensures HandleMessages(l, Settings(h, k)).timers == h && MessagesLegal(l, Settings(h, k))
    ensures HandleMessages(l, Settings(h, k)).shutdown == l.shutdown
    decreases |h| - k
  {
    if k == |h| {
      assert h[..k] == h;
    } else {
      var m := TimerMessage(h[k].value, h[k].priority);
      Heap.InsertInOrder(h, k);
      assert Settings(h, k)[1..] == Settings(h, k + 1);
      SettingInOrder(HandleMessage(l, m), h, k + 1);
    }
  }

  lemma {:induction false} MessagesAppend(l: Loop, ms: seq<Message>, m: Message)
    requires m.TimerMessage? && MessagesLegal(l, ms)
    ensures HandleMessages(l, ms + [m]) == HandleMessage(HandleMessages(l, ms), m) && MessagesLegal(l, ms + [m])
    decreases ms
  {
    if ms != [] {
      assert (ms + [m])[1..] == ms[1..] + [m];
      MessagesAppend(HandleMessage(l, ms[0]), ms[1..], m);
    }
  }

  const QUEUE: seq<Heap.Entry<Port>> :=
    [Heap.Entry(1, Port(1)), Heap.Entry(10, Port(2)), Heap.Entry(2, Port(3)), Heap.Entry(11, Port(4)),
     Heap.Entry(12, Port(5)), Heap.Entry(5, Port(6)), Heap.Entry(3, Port(7))]

  /** A round that only brings messages. */
  function MessageRound(now: int, ms: seq<Message>): (r: Round)
  {
    Round(now, [Event(InterruptReady, true)], ms)
  }

  /** A round in which only the timer expires. */
  function TimerRound(now: int): (r: Round)
  {
    Round(now, [Event(TimerReady, true)], [])
  }

  /** Seven timers are set, the fourth is cancelled, and the timer expires twice. */
  function MissingRun(): (rs: seq<Round>)
  {
    [MessageRound(0, Settings(QUEUE, 0) + [TimerMessage(Port(4), -1)])] + ([TimerRound(1)] + ([TimerRound(2)] + []))
  }

  lemma RunOn(l: Loop, r: Round, rs: seq<Round>)
    requires !l.shutdown
    ensures Poll(l, [r] + rs) == Poll(HandleRound(l, r), rs)
    ensures RunLegal(l, [r] + rs) <==> RoundLegal(l, r) && RunLegal(HandleRound(l, r), rs)
  {
    assert ([r] + rs)[1..] == rs;
  }

  lemma MessageRoundIs(l: Loop, now: int, ms: seq<Message>)
    ensures HandleRound(l, MessageRound(now, ms)) == HandleMessages(l, ms)
    ensures MessagesLegal(l, ms) ==> RoundLegal(l, MessageRound(now, ms))
  {
    hide HandleMessages, MessagesLegal;
    var es := [Event(InterruptReady, true)];
    assert es[1..] == [] && HandleReports(l, es, now) == l && es[0].report.InterruptReady?;
  }

  lemma QueueIsHeap()
    ensures Heap.Heap(QUEUE) && Heap.Unique(QUEUE) && Heap.Deadlines(QUEUE, [1, 10, 2, 11, 12, 5, 3])
    ensures Heap.UpdateTimeout(QUEUE, Port(4), -1) == Heap.RemoveAt(QUEUE, 3)
  {
    hide Heap.RemoveAt;
    Heap.SevenInOrder(QUEUE);
    Heap.OffsetIsUnique(QUEUE, Port(4), 3);
  }

  lemma FirstRound()
    ensures
      var r := MessageRound(0, Settings(QUEUE, 0) + [TimerMessage(Port(4), -1)]);
      var l := HandleRound(Start(), r);
      RoundLegal(Start(), r) && !l.shutdown && l.timers == Heap.RemoveAt(QUEUE, 3) && l.armed == TimerValue(l.timers)
  {
    hide Heap.RemoveAt, Heap.UpdateTimeout, Heap.Heap, Heap.Unique, HandleMessages, MessagesLegal, HandleRound,
         Settings, RoundLegal;
    var m := TimerMessage(Port(4), -1);
    QueueIsHeap();
    assert QUEUE[..0] == [];
    SettingInOrder(Start(), QUEUE, 0);
    MessagesAppend(Start(), Settings(QUEUE, 0), m);
    MessageRoundIs(Start(), 0, Settings(QUEUE, 0) + [m]);
  }

  lemma ExpiryRound(l: Loop, now: int)
    requires !l.shutdown && l.timers != [] && l.armed == TimerValue(l.timers) && 0 < l.timers[0].priority <= now
    ensures
      var r := TimerRound(now);
      var l' := HandleRound(l, r);
      RoundLegal(l, r) && !l'.shutdown && l'.timers == Heap.RemoveAt(l.timers, 0) && l'.armed == TimerValue(l'.timers)
  {
    hide Heap.RemoveAt;
    var es := [Event(TimerReady, true)];
    assert es[1..] == [] && HandleReports(l, es, now) == HandleTimer(l, now);
    SplitIsExact(l.timers[0].priority);
  }

  /**
   * A legal run from the start after which the timer is armed for five milliseconds while a port is waiting for a
   * deadline of three.
   */
  lemma CancelCanMissADeadline()
    ensures RunLegal(Start(), MissingRun())
    ensures
      var l := Poll(Start(), MissingRun());
      TimersOk(l) && Millis(l.armed) == 5 && exists p :: PendingDeadline(TimerRecords(l.log), p) == 3
  {
    var first, l := MessageRound(0, Settings(QUEUE, 0) + [TimerMessage(Port(4), -1)]), Start();
    hide Heap.RemoveAt, HandleRound, RoundLegal, TimersOk, PendingDeadline, TimerRecords, Settings, TimerRound,
         MessageRound;
    var l1 := HandleRound(l, first);
    var l2 := HandleRound(l1, TimerRound(1));
    var l3 := HandleRound(l2, TimerRound(2));
    QueueIsHeap();
    FirstRound();
    Heap.CancelFourth(QUEUE);
    ExpiryRound(l1, 1);
    Heap.ExpireFirst(l1.timers);
    ExpiryRound(l2, 2);
    Heap.ExpireSecond(l2.timers);
    RunOn(l2, TimerRound(2), []);
    RunOn(l1, TimerRound(1), [TimerRound(2)] + []);
    RunOn(l, first, [TimerRound(1)] + ([TimerRound(2)] + []));
    StartTimersOk();
    EveryRunKeepsTimers(l, MissingRun());
    Queued(l3, 3);
    SplitIsExact(5);
  }

  lemma Queued(l: Loop, i: nat)
    requires TimersOk(l) && i < |l.timers|
    ensures PendingDeadline(TimerRecords(l.log), l.timers[i].value) == l.timers[i].priority
  {
    assert l.timers[i] in l.timers;
  }
}
