/** The two-thread handshake that stops the event handler and frees what it used. */
module Shutdown {

  /** The stopping thread, by what it does next. */
  datatype Stopper = ToLock | ToSend | ToWait | Asleep | ToRelock | ToUnlock | ToFree | Stopped

  /** The event handler's thread, by what it does next. */
  datatype Worker = Serving | ToLockMonitor | ToNotify | ToUnlockMonitor | Gone

  datatype Owner = Nobody | StopperOwns | WorkerOwns

  datatype State = State(stopper: Stopper, worker: Worker, owner: Owner, sent: bool, freed: bool)

  const START := State(ToLock, Serving, Nobody, false, false)

  /** `Spurious` wakes the stopping thread although nobody notified it; the wait is not inside a loop. */
  datatype Step =
    | Lock | Send | Wait | Relock | Unlock | Free | Spurious
    | SeeShutdown | LockMonitor | Notify | UnlockMonitor

  predicate Enabled(s: State, step: Step)
  {
    match step
    case Lock => s.stopper == ToLock && s.owner == Nobody
    case Send => s.stopper == ToSend
    case Wait => s.stopper == ToWait
    case Relock => s.stopper == ToRelock && s.owner == Nobody
    case Unlock => s.stopper == ToUnlock
    case Free => s.stopper == ToFree
    case Spurious => s.stopper == Asleep
    case SeeShutdown => s.worker == Serving && s.sent
    case LockMonitor => s.worker == ToLockMonitor && s.owner == Nobody
    case Notify => s.worker == ToNotify
    case UnlockMonitor => s.worker == ToUnlockMonitor
  }

  function After(s: State, step: Step): (r: State)
  {
    match step
    case Lock => s.(stopper := ToSend, owner := StopperOwns)
    case Send => s.(stopper := ToWait, sent := true)
    case Wait => s.(stopper := Asleep, owner := Nobody)
    case Relock => s.(stopper := ToUnlock, owner := StopperOwns)
    case Unlock => s.(stopper := ToFree, owner := Nobody)
    case Free => s.(stopper := Stopped, freed := true)
    case Spurious => s.(stopper := ToRelock)
    case SeeShutdown => s.(worker := ToLockMonitor)
    case LockMonitor => s.(worker := ToNotify, owner := WorkerOwns)
    case Notify => s.(worker := ToUnlockMonitor, stopper := if s.stopper == Asleep then ToRelock else s.stopper)
    case UnlockMonitor => s.(worker := Gone, owner := Nobody)
  }

  /** A run of steps, each enabled when it is taken; spurious wake-ups only where the platform has them. */
  ghost predicate RunOf(s: State, run: seq<Step>, spurious: bool)
    decreases run
  {
    || run == []
    || (Enabled(s, run[0]) && (run[0] == Spurious ==> spurious) && RunOf(After(s, run[0]), run[1..], spurious))
  }

  function End(s: State, run: seq<Step>): (r: State)
    decreases run
  {
    if run == [] then s else End(After(s, run[0]), run[1..])
  }

  /** Nothing is freed while the event handler's thread still uses it. */
  predicate Safe(s: State)
  {
    s.freed ==> s.worker == Gone
  }

  /** Where both threads stand when no wake-up was spurious. */
  ghost predicate Inv(s: State)
  {
    match s.stopper
    case ToLock => s.worker == Serving && s.owner == Nobody && !s.sent && !s.freed
    case ToSend => s.worker == Serving && s.owner == StopperOwns && !s.sent && !s.freed
    case ToWait => s.worker in {Serving, ToLockMonitor} && s.owner == StopperOwns && s.sent && !s.freed
    case Asleep =>
      && s.worker in {Serving, ToLockMonitor, ToNotify} && s.sent && !s.freed
      && s.owner == (if s.worker == ToNotify then WorkerOwns else Nobody)
    case ToRelock =>
      && s.worker in {ToUnlockMonitor, Gone} && s.sent && !s.freed
      && s.owner == (if s.worker == ToUnlockMonitor then WorkerOwns else Nobody)
    case ToUnlock => s.worker == Gone && s.owner == StopperOwns && s.sent && !s.freed
    case ToFree => s.worker == Gone && s.owner == Nobody && s.sent && !s.freed
    case Stopped => s.worker == Gone && s.owner == Nobody && s.sent && s.freed
  }

  /** Steps left to both threads together. */
  function Left(s: State): (n: nat)
  {
    (match s.stopper
     case ToLock => 7 case ToSend => 6 case ToWait => 5 case Asleep => 4
     case ToRelock => 3 case ToUnlock => 2 case ToFree => 1
     case Stopped => 0) +
    (match s.worker
     case Serving => 4 case ToLockMonitor => 3 case ToNotify => 2 case ToUnlockMonitor => 1 case Gone => 0)
  }

  lemma StepKeepsInv(s: State, step: Step)
    requires Inv(s) && Enabled(s, step) && step != Spurious
    ensures Inv(After(s, step)) && Left(After(s, step)) < Left(s)
    ensures step == Notify ==> s.stopper == Asleep
  {
  }

  /** No wake-up is lost: the notification always finds the stopping thread asleep, so some thread can always go on. */
  lemma NeverStuck(s: State)
    requires Inv(s)
    ensures s.stopper == Stopped || exists step :: step != Spurious && Enabled(s, step)
  {
    var step :=
      match s.stopper
      case ToLock => Lock
      case ToSend => Send
      case ToWait => Wait
      case Asleep =>
        if s.worker == Serving then SeeShutdown else if s.worker == ToLockMonitor then LockMonitor else Notify
      case ToRelock => if s.worker == ToUnlockMonitor then UnlockMonitor else Relock
      case ToUnlock => Unlock
      case ToFree => Free
      case Stopped => Spurious;
    assert s.stopper == Stopped || Enabled(s, step);
  }

  lemma {:induction false} RunKeepsInv(s: State, run: seq<Step>)
    requires Inv(s) && RunOf(s, run, false)
    ensures Inv(End(s, run)) && Left(End(s, run)) + |run| <= Left(s)
    decreases run
  {
    if run != [] {
      StepKeepsInv(s, run[0]);
      RunKeepsInv(After(s, run[0]), run[1..]);
    }
  }

  /** A spurious wake-up any time before the event handler's thread holds the monitor can free too early. */
  lemma EarlyWakeUpIsUnsafe(s: State)
    requires Inv(s) && s.stopper == Asleep && s.owner == Nobody
    ensures
      var run := [Spurious, Relock, Unlock, Free];
      && RunOf(s, run, true) && !Safe(End(s, run))
      && End(s, run) == s.(stopper := Stopped, freed := true)
  {
    var s1 := After(s, Spurious);
    var s2 := After(s1, Relock);
    var s3 := After(s2, Unlock);
    RunStep(s3, Free, []);
    RunStep(s2, Unlock, [Free]);
    RunStep(s1, Relock, [Unlock, Free]);
    RunStep(s, Spurious, [Relock, Unlock, Free]);
  }

  const BROKEN_RUN := [Lock, Send, Wait, Spurious, Relock, Unlock, Free]

  lemma SpuriousWakeUpFreesTooEarly()
    ensures RunOf(START, BROKEN_RUN, true) && End(START, BROKEN_RUN) == State(Stopped, Serving, Nobody, true, true)
  {
    var s1 := After(START, Lock);
    var s2 := After(s1, Send);
    EarlyWakeUpIsUnsafe(After(s2, Wait));
    RunStep(s2, Wait, [Spurious, Relock, Unlock, Free]);
    RunStep(s1, Send, [Wait, Spurious, Relock, Unlock, Free]);
    RunStep(START, Lock, [Send, Wait, Spurious, Relock, Unlock, Free]);
  }

  lemma RunStep(s: State, step: Step, rest: seq<Step>)
    requires Enabled(s, step) && RunOf(After(s, step), rest, true)
    ensures RunOf(s, [step] + rest, true) && End(s, [step] + rest) == End(After(s, step), rest)
  {
    assert ([step] + rest)[1..] == rest;
  }

  /**
   * The handshake is safe on every run exactly on platforms whose waits do not wake up spuriously; there it always
   * finishes.
   */
  lemma SafeIffNoSpuriousWakeUps(spurious: bool)
    ensures (forall run :: RunOf(START, run, spurious) ==> Safe(End(START, run))) <==> !spurious
    ensures !spurious ==> forall run :: RunOf(START, run, false) ==>
              |run| <= Left(START) &&
              (End(START, run).stopper == Stopped || exists step :: step != Spurious && Enabled(End(START, run), step))
  {
    forall run | RunOf(START, run, false)
      ensures Safe(End(START, run)) && |run| <= Left(START)
      ensures End(START, run).stopper == Stopped || exists step :: step != Spurious && Enabled(End(START, run), step)
    {
      RunKeepsInv(START, run);
      NeverStuck(End(START, run));
    }
    SpuriousWakeUpFreesTooEarly();
  }
}
