/** The kqueue loop's view of one descriptor: what is registered, what is tracked, and how long the loop may sleep. */
module Kqueue {
  import opened Flags
  import Spec = DescriptorSpec
  import Heap = HeapSpec

  datatype Filters = Filters(read: bool, write: bool)

  const NO_FILTERS := Filters(false, false)

  function FiltersOf(mask: Events): (f: Filters)
  {
    Filters(mask & IN_EVENT != 0, mask & OUT_EVENT != 0)
  }

  /**
   * A descriptor, whether it is marked as tracked, and the filters the kernel holds for it. `sound` turns false
   * when an assertion of the program fails; `refused` remembers that the kernel once refused a registration.
   */
  datatype Watch = Watch(d: Spec.Descriptor, tracked: bool, kernel: Filters, sound: bool, refused: bool)

  function NewWatch(listening: bool): (w: Watch)
    ensures Inv(w)
  {
    Watch(Spec.NewDescriptor(listening), false, NO_FILTERS, true, false)
  }

  function RemoveFromKqueue(w: Watch): (r: Watch)
  {
    if !w.tracked then w else w.(kernel := NO_FILTERS, tracked := false)
  }

  function AddToKqueue(w: Watch, accepted: bool): (r: Watch)
  {
    var f := FiltersOf(Spec.Mask(w.d));
    var w1 := w.(sound := w.sound && !w.tracked && (f.read || f.write));
    if accepted then w1.(tracked := true, kernel := Filters(w.kernel.read || f.read, w.kernel.write || f.write))
    else w1.(d := Spec.NotifyAll(w.d), refused := true)
  }

  function Update(w: Watch, oldMask: Events, accepted: bool): (r: Watch)
  {
    var newMask := Spec.Mask(w.d);
    if oldMask != 0 && newMask == 0 then RemoveFromKqueue(w)
    else if oldMask == 0 && newMask != 0 then AddToKqueue(w, accepted)
    else if oldMask != 0 && newMask != 0 && oldMask != newMask then
      AddToKqueue(RemoveFromKqueue(w.(sound := w.sound && w.d.Single?)), accepted)
    else w
  }

  /** An event of a batch: its filter, whether it reports an error, and whether a registration it causes is accepted. */
  datatype KEvent = KEvent(write: bool, error: bool, accepted: bool)

  function HandleEvent(w: Watch, e: KEvent): (r: Watch)
  {
    var oldMask := Spec.Mask(w.d);
    if e.error then Update(w.(d := Spec.NotifyAll(w.d)), oldMask, e.accepted)
    else
      var (d, port) := Spec.NextNotify(w.d);
      Update(w.(d := d, sound := w.sound && port != ILLEGAL_PORT), oldMask, e.accepted)
  }

  function HandleEvents(w: Watch, es: seq<KEvent>): (r: Watch)
    decreases es
  {
    if es == [] then w else HandleEvents(HandleEvent(w, es[0]), es[1..])
  }

  datatype Command =
    | SetMask(port: Port, events: Events)
    | Return(port: Port, count: nat)
    | Remove(port: Port)

  function Commanded(d: Spec.Descriptor, c: Command): (r: Spec.Descriptor)
  {
    match c
    case SetMask(port, events) => Spec.SetPortAndMask(d, port, events)
    case Return(port, count) => Spec.ReturnTokensTo(d, port, count)
    case Remove(port) => Spec.RemovePort(d, port)
  }

  datatype Round =
    | Batch(events: seq<KEvent>)
    | Message(command: Command, accepted: bool)

  function Step(w: Watch, r: Round): (w': Watch)
  {
    match r
    case Batch(events) => HandleEvents(w, events)
    case Message(command, accepted) => Update(w.(d := Commanded(w.d, command)), Spec.Mask(w.d), accepted)
  }

  function Run(w: Watch, run: seq<Round>): (w': Watch)
    decreases run
  {
    if run == [] then w else Run(Step(w, run[0]), run[1..])
  }

  /** A run does all its rounds, one after the other. */
  lemma {:induction false} RunInParts(w: Watch, a: seq<Round>, b: seq<Round>)
    ensures Run(w, a + b) == Run(Run(w, a), b)
    ensures forall r :: Run(w, [r]) == Step(w, r)
    decreases a
  {
    if a == [] {
      assert a + b == b;
    } else {
      assert (a + b)[1..] == a[1..] + b;
      RunInParts(Step(w, a[0]), a[1..], b);
    }
    forall r
      ensures Run(w, [r]) == Step(w, r)
    {
      assert [r][1..] == [];
      hide Step;
    }
  }

  /**
   * A batch holds at most one event per filter registered when it was fetched; so there may be two for one descriptor.
   */
  ghost predicate RoundLegal(w: Watch, r: Round)
  {
    match r
    case Batch(events) =>
      && (forall i :: 0 <= i < |events| ==> if events[i].write then w.kernel.write else w.kernel.read)
      && (forall i, j :: 0 <= i < j < |events| ==> events[i].write != events[j].write)
    case Message(SetMask(port, events), _) => port != ILLEGAL_PORT && events <= IN_EVENT | OUT_EVENT
    case Message(_, _) => true
  }

  ghost predicate RunLegal(w: Watch, run: seq<Round>)
    decreases run
  {
    run == [] || (RoundLegal(w, run[0]) && RunLegal(Step(w, run[0]), run[1..]))
  }

  ghost predicate Wanted(d: Spec.Descriptor)
  {
    Spec.Valid(d) && (d.Single? ==> d.mask <= IN_EVENT | OUT_EVENT)
  }

  /** Tracked means registered for exactly a current mask that is not empty; and without a refusal the converse. */
  ghost predicate Matches(w: Watch, mask: Events)
  {
    && (w.tracked ==> mask != 0 && w.kernel == FiltersOf(mask))
    && (!w.tracked ==> w.kernel == NO_FILTERS)
    && (!w.refused && mask != 0 ==> w.tracked)
  }

  ghost predicate Inv(w: Watch)
  {
    w.sound && Wanted(w.d) && Matches(w, Spec.Mask(w.d))
  }

  lemma SomeFilter(mask: Events)
    requires mask <= IN_EVENT | OUT_EVENT && mask != 0
    ensures FiltersOf(mask).read || FiltersOf(mask).write
  {
  }

  lemma MaskWanted(d: Spec.Descriptor)
    requires Wanted(d)
    ensures Spec.Mask(d) <= IN_EVENT | OUT_EVENT
    ensures d.Multiple? ==> Spec.Mask(d) == 0 || Spec.Mask(d) == IN_EVENT
  {
  }

  lemma NotifyAllWanted(d: Spec.Descriptor)
    requires Wanted(d)
    ensures Wanted(Spec.NotifyAll(d))
  {
    Spec.NotifyAllValid(d);
  }

  /** The registration step after any change of the descriptor restores the match with its mask; no assertion fails. */
  lemma UpdateKeepsInv(w: Watch, oldMask: Events, accepted: bool)
    requires w.sound && Wanted(w.d) && Matches(w, oldMask)
    requires w.d.Multiple? ==> oldMask == 0 || oldMask == IN_EVENT
    ensures Inv(Update(w, oldMask, accepted))
  {
    hide Spec.Valid, Spec.NotifyAll;
    MaskWanted(w.d);
    var newMask := Spec.Mask(w.d);
    if newMask != 0 {
      SomeFilter(newMask);
      NotifyAllWanted(w.d);
    }
  }

  /** An event reaches a port: the descriptor has one, and a shared descriptor has someone ready. */
  ghost predicate Notifiable(d: Spec.Descriptor)
  {
    if d.Single? then d.port != ILLEGAL_PORT else Spec.Mask(d) != 0
  }

  /** The port an event is posted to is legal. */
  lemma EventIsSound(w: Watch)
    requires Inv(w) && Notifiable(w.d)
    ensures Spec.NextNotify(w.d).1 != ILLEGAL_PORT && (w.d.Multiple? ==> Spec.Mask(w.d) != 0)
  {
    if w.d.Multiple? {
      Spec.NextNotifyValid(w.d);
    }
  }

  /** An event other than an error breaks no assertion exactly when there is a port to tell. */
  lemma EventSoundIff(w: Watch, e: KEvent)
    requires Inv(w)
    ensures HandleEvent(w, e).sound <==> e.error || Notifiable(w.d)
  {
    MaskWanted(w.d);
    NotifyAllWanted(w.d);
    if Notifiable(w.d) {
      EventKeepsInv(w, e);
    } else if e.error {
      UpdateKeepsInv(w.(d := Spec.NotifyAll(w.d)), Spec.Mask(w.d), e.accepted);
    }
  }

  lemma EventKeepsInv(w: Watch, e: KEvent)
    requires Inv(w) && Notifiable(w.d)
    ensures Inv(HandleEvent(w, e))
    ensures w.d.Single? ==> Notifiable(HandleEvent(w, e).d) && HandleEvent(w, e).d.Single?
  {
    MaskWanted(w.d);
    NotifyAllWanted(w.d);
    if w.d.Multiple? {
      Spec.NextNotifyValid(w.d);
    }
    var oldMask := Spec.Mask(w.d);
    var w1 := if e.error then w.(d := Spec.NotifyAll(w.d)) else w.(d := Spec.NextNotify(w.d).0);
    UpdateKeepsInv(w1, oldMask, e.accepted);
    UpdateKeepsPort(w1, oldMask, e.accepted);
  }

  lemma UpdateKeepsPort(w: Watch, oldMask: Events, accepted: bool)
    ensures var r := Update(w, oldMask, accepted); w.d.Single? ==> r.d.Single? && r.d.port == w.d.port
  {
  }

  lemma {:induction false} EventsKeepInv(w: Watch, es: seq<KEvent>)
    requires Inv(w) && (es != [] ==> Notifiable(w.d)) && (w.d.Multiple? ==> |es| <= 1)
    ensures Inv(HandleEvents(w, es))
    decreases es
  {
    if es != [] {
      EventKeepsInv(w, es[0]);
      EventsKeepInv(HandleEvent(w, es[0]), es[1..]);
    }
  }

  /** A legal batch finds a port for every event; a shared descriptor gets at most one. */
  lemma LegalBatch(w: Watch, es: seq<KEvent>)
    requires Inv(w) && RoundLegal(w, Batch(es))
    ensures (es != [] ==> Notifiable(w.d)) && (w.d.Multiple? ==> |es| <= 1)
  {
    MaskWanted(w.d);
    if es != [] {
      assert if es[0].write then w.kernel.write else w.kernel.read;
      assert w.tracked && Spec.Mask(w.d) != 0;
    }
    if |es| > 1 {
      assert es[0].write != es[1].write;
      assert if es[1].write then w.kernel.write else w.kernel.read;
    }
  }

  lemma CommandKeepsInv(w: Watch, c: Command, accepted: bool)
    requires Inv(w) && RoundLegal(w, Message(c, accepted))
    ensures Inv(Step(w, Message(c, accepted)))
  {
    MaskWanted(w.d);
    CommandWanted(w.d, c);
    UpdateKeepsInv(w.(d := Commanded(w.d, c)), Spec.Mask(w.d), accepted);
  }

  lemma CommandWanted(d: Spec.Descriptor, c: Command)
    requires Wanted(d) && (c.SetMask? ==> c.port != ILLEGAL_PORT && c.events <= IN_EVENT | OUT_EVENT)
    ensures Wanted(Commanded(d, c)) && (Commanded(d, c).Single? <==> d.Single?)
  {
    match c {
      case SetMask(port, events) => Spec.SetPortAndMaskValid(d, port, events);
      case Return(port, count) => Spec.ReturnTokensValid(d, port, count);
      case Remove(port) => if d.Multiple? { Spec.RemovePortValid(d, port); }
    }
  }

  /**
   * Whatever mix of messages, event batches and refused registrations: tracked means registered for exactly the
   * filters of a current non-empty mask, and no assertion of the registration code or the event loop ever fails.
   */
  lemma {:induction false} EveryRunIsTracked(w: Watch, run: seq<Round>)
    requires Inv(w) && RunLegal(w, run)
    ensures Inv(Run(w, run))
    decreases run
  {
    if run != [] {
      match run[0] {
        case Batch(es) => LegalBatch(w, es); EventsKeepInv(w, es);
        case Message(c, accepted) => CommandKeepsInv(w, c, accepted);
      }
      EveryRunIsTracked(Step(w, run[0]), run[1..]);
    }
  }

  /** Two events of one batch can take a counter from one token to below zero. */
  lemma SecondEventOverdraws(port: Port)
    requires port != ILLEGAL_PORT
    ensures
      var w := Watch(Spec.Single(port, 1, IN_EVENT | OUT_EVENT), true, Filters(true, true), true, false);
      var batch := Batch([KEvent(false, false, true), KEvent(true, false, true)]);
      && Inv(w) && RoundLegal(w, batch)
      && Step(w, batch).d == Spec.Single(port, -1, IN_EVENT | OUT_EVENT) && !Step(w, batch).tracked
  {
    var w := Watch(Spec.Single(port, 1, IN_EVENT | OUT_EVENT), true, Filters(true, true), true, false);
    var first, second := KEvent(false, false, true), KEvent(true, false, true);
    var w1 := HandleEvent(w, first);
    assert w1 == Watch(Spec.Single(port, 0, IN_EVENT | OUT_EVENT), false, NO_FILTERS, true, false);
    var w2 := HandleEvent(w1, second);
    assert w2 == w1.(d := Spec.Single(port, -1, IN_EVENT | OUT_EVENT));
    var es := [first, second];
    assert es[1..] == [second] && [second][1..] == [];
    assert HandleEvents(w, es) == HandleEvents(w1, [second]) == HandleEvents(w2, []) == w2;
  }

  // ---------- how long the loop may sleep ----------

  const INFINITY_TIMEOUT := -1
  const MAX_INT32 := 0x7FFF_FFFF

  function GetTimeout(timers: seq<Heap.Entry<Port>>, now: int): (millis: int)
  {
    if timers == [] then INFINITY_TIMEOUT
    else if timers[0].priority - now < 0 then 0 else timers[0].priority - now
  }

  /** The wait handed to the kernel; none means forever. */
  datatype Wait = Forever | AtMost(ts: Timespec)

  function WaitFor(timers: seq<Heap.Entry<Port>>, now: int): (w: Wait)
  {
    var millis := GetTimeout(timers, now);
    var capped := if millis > MAX_INT32 then MAX_INT32 else millis;
    if capped >= 0 then AtMost(Timespec(capped / 1000, (capped - capped / 1000 * 1000) * 1000000)) else Forever
  }

  function Nanos(ts: Timespec): (n: int)
  {
    ts.sec * 1_000_000_000 + ts.nsec
  }

  /** Sleeping from `now` for the given wait does not go past a deadline that lies ahead. */
  ghost predicate WakesBy(w: Wait, now: int, deadline: int)
  {
    w.AtMost? && (Nanos(w.ts) == 0 || now * 1_000_000 + Nanos(w.ts) <= deadline * 1_000_000)
  }

  /** The split is a proper timespec, exact for the capped wait, and the loop sleeps forever only without timers. */
  lemma WaitIsExact(timers: seq<Heap.Entry<Port>>, now: int)
    ensures WaitFor(timers, now).Forever? <==> timers == []
    ensures timers != [] ==>
              var ts := WaitFor(timers, now).ts;
              var millis := GetTimeout(timers, now);
              && 0 <= ts.sec <= MAX_INT32 && 0 <= ts.nsec < 1_000_000_000
              && Nanos(ts) == 1_000_000 * (if millis > MAX_INT32 then MAX_INT32 else millis)
  {
  }

  /** The wait outlasts no deadline when the timers are in heap order. */
  lemma WaitNeverOutlasts(timers: seq<Heap.Entry<Port>>, now: int, i: nat)
    requires Heap.Heap(timers) && i < |timers|
    ensures WakesBy(WaitFor(timers, now), now, timers[i].priority)
  {
    Heap.HeapMinimum(timers, i);
    WaitIsExact(timers, now);
  }

  /**
   * In general the loop wakes by every deadline exactly when the first timer, as far as it is ahead and the cap allows,
   * comes first.
   */
  lemma WakesByIff(timers: seq<Heap.Entry<Port>>, now: int, i: nat)
    requires i < |timers|
    ensures WakesBy(WaitFor(timers, now), now, timers[i].priority) <==>
            || timers[0].priority <= now || timers[i].priority >= timers[0].priority
            || timers[i].priority >= now + MAX_INT32
  {
    WaitIsExact(timers, now);
  }

  /** Seven timers are set, one is cancelled and two expire at their time; then the loop sleeps past a deadline. */
  lemma CancelCanOversleep(h: seq<Heap.Entry<Port>>)
    requires Heap.Deadlines(h, [1, 10, 2, 11, 12, 5, 3]) && Heap.Unique(h)
    ensures
      var cancelled := Heap.UpdateTimeout(Heap.SetAll(h, 7), h[3].value, -1);
      && |cancelled| == 6 && cancelled[0].priority == 1
      && var expired := Heap.RemoveAt(cancelled, 0);
         && expired[0].priority == 2
         && var later := Heap.RemoveAt(expired, 0);
            |later| == 4 && later[3].priority == 3 && !WakesBy(WaitFor(later, 2), 2, 3)
  {
    hide Heap.RemoveAt, Heap.SetAll, Heap.UpdateTimeout;
    Heap.CancelCanHideTheMinimum(h);
    Heap.CancelFourth(h);
    Heap.ExpireFirst(Heap.RemoveAt(h, 3));
    WakesByIff(Heap.RemoveAt(Heap.RemoveAt(Heap.RemoveAt(h, 3), 0), 0), 2, 3);
  }
}
