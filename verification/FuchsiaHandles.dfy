/** Edge-triggered notifications simulated over level signals, on a handle that two threads use under its mutex. */
module FuchsiaHandles {

  datatype Events = Events(input: bool, output: bool, closed: bool)

  const NOTHING := Events(false, false, false)

  datatype Handle = Handle(writeEnabled: bool, readEnabled: bool, closeEnabled: bool, availableBytes: int)

  /**
   * A locked section of either thread: the Dart thread reads, writes, accepts and asks for available bytes,
   * the event thread toggles. `result`, `available` and `bytes` are what the system call in it returns.
   */
  datatype Step =
    | Read(result: int)
    | Write
    | Accept
    | AvailableBytes(available: int)
    | ToggleEvents(raw: Events, bytes: int)

  function Remaining(available: int, result: int): (n: int)
    ensures result > 0 && 0 <= available <= result ==> n == 0
    ensures result <= 0 ==> n == available
  {
    if result > 0 then (if available >= result then available - result else 0) else available
  }

  function After(h: Handle, s: Step): (h': Handle)
  {
    match s
    case Read(result) =>
      var available := Remaining(h.availableBytes, result);
      h.(availableBytes := available, readEnabled := h.readEnabled || available == 0 || result < 0)
    case Write => h.(writeEnabled := true)
    case Accept => h.(readEnabled := true)
    case AvailableBytes(available) => h.(availableBytes := if available < 0 then 1 else available)
    case ToggleEvents(raw, bytes) =>
      h.(writeEnabled := h.writeEnabled && !raw.output,
         readEnabled := h.readEnabled && !(raw.input && (bytes != 0 || raw.closed)),
         closeEnabled := h.closeEnabled && !raw.closed)
  }

  /** The events a step sends to the Dart thread. */
  function Delivered(h: Handle, s: Step): (e: Events)
  {
    if !s.ToggleEvents? then NOTHING
    else Events(s.raw.input && h.readEnabled, s.raw.output && h.writeEnabled, s.raw.closed && h.closeEnabled)
  }

  /** The state after a run of steps, in the order in which the threads took the mutex. */
  function State(h: Handle, run: seq<Step>): (h': Handle)
  {
    if run == [] then h else After(State(h, run[..|run| - 1]), run[|run| - 1])
  }

  function At(h: Handle, run: seq<Step>, i: nat): (e: Events)
    requires i < |run|
  {
    Delivered(State(h, run[..i]), run[i])
  }

  /** An in-event after which the handle stays quiet until the Dart thread consumes the input. */
  predicate Quieting(h: Handle, run: seq<Step>, i: nat)
    requires i < |run|
  {
    At(h, run, i).input && (run[i].bytes != 0 || run[i].raw.closed)
  }

  // ---------- bytes announced but not read ----------

  /** The last time before step `n` that the Dart thread asked for the available bytes; -1 if it never did. */
  function LastAsked(run: seq<Step>, n: nat): (k: int)
    requires n <= |run|
    ensures -1 <= k < n && (k >= 0 ==> run[k].AvailableBytes?)
    ensures forall i :: k < i < n ==> !run[i].AvailableBytes?
  {
    if n == 0 then -1 else if run[n - 1].AvailableBytes? then n - 1 else LastAsked(run, n - 1)
  }

  /** All the bytes read in steps `from` to `n`. */
  function BytesRead(run: seq<Step>, from: nat, n: nat): (total: nat)
    requires from <= n <= |run|
  {
    if from == n then 0
    else BytesRead(run, from, n - 1) + if run[n - 1].Read? && run[n - 1].result > 0 then run[n - 1].result else 0
  }

  /** What is left of an announcement after reads; more may be read than was announced. */
  function Left(announced: int, read: nat): (n: int)
  {
    if read == 0 then announced else if announced > read then announced - read else 0
  }

  /**
   * The bytes announced and not read yet, from the run alone: the last answer, an error counting as one byte, less
   * all that was read since. Before the first answer the count is whatever it was at the start.
   */
  function Unread(start: int, run: seq<Step>, n: nat): (bytes: int)
    requires n <= |run|
  {
    var k := LastAsked(run, n);
    var announced := if k < 0 then start else if run[k].available < 0 then 1 else run[k].available;
    Left(announced, BytesRead(run, k + 1, n))
  }

  /** The handle's count is exactly that. */
  lemma {:induction false} CountIsUnread(h: Handle, run: seq<Step>, n: nat)
    requires n <= |run|
    ensures State(h, run[..n]).availableBytes == Unread(h.availableBytes, run, n)
    decreases n
  {
    if n > 0 {
      CountIsUnread(h, run, n - 1);
      StateStep(h, run, n - 1);
    }
  }

  /** Steps of the Dart thread that ask for in-events again: an accept, a failing read, a read of the last bytes. */
  predicate Consumes(start: int, run: seq<Step>, i: nat)
    requires i < |run|
  {
    run[i].Accept? || (run[i].Read? && (run[i].result < 0 || Unread(start, run, i + 1) == 0))
  }

  /**
   * A read that leaves announced bytes behind consumes nothing: it takes its bytes off and in-events stay as they were.
   */
  lemma PartialReadConsumesNothing(h: Handle, run: seq<Step>, i: nat)
    requires i < |run| && run[i].Read? && 0 <= run[i].result < Unread(h.availableBytes, run, i)
    ensures !Consumes(h.availableBytes, run, i)
    ensures Unread(h.availableBytes, run, i + 1) == Unread(h.availableBytes, run, i) - run[i].result
    ensures
      var before, after := State(h, run[..i]), State(h, run[..i + 1]);
      after == before.(availableBytes := before.availableBytes - run[i].result)
  {
    CountIsUnread(h, run, i);
    CountIsUnread(h, run, i + 1);
    StateStep(h, run, i);
  }

  ghost predicate OutQuiet(h: Handle, run: seq<Step>, n: nat)
    requires n <= |run|
  {
    exists i :: 0 <= i < n && At(h, run, i).output && forall k :: i < k < n ==> !run[k].Write?
  }

  ghost predicate InQuiet(h: Handle, run: seq<Step>, n: nat)
    requires n <= |run|
  {
    exists i :: 0 <= i < n && Quieting(h, run, i) && forall k :: i < k < n ==> !Consumes(h.availableBytes, run, k)
  }

  ghost predicate CloseQuiet(h: Handle, run: seq<Step>, n: nat)
    requires n <= |run|
  {
    exists i :: 0 <= i < n && At(h, run, i).closed
  }

  lemma StateStep(h: Handle, run: seq<Step>, n: nat)
    requires n < |run|
    ensures State(h, run[..n + 1]) == After(State(h, run[..n]), run[n])
  {
    assert run[..n + 1][..n] == run[..n];
  }

  lemma OutQuietStep(h: Handle, run: seq<Step>, n: nat)
    requires n < |run|
    ensures OutQuiet(h, run, n + 1) <==> At(h, run, n).output || (OutQuiet(h, run, n) && !run[n].Write?)
  {
    hide At;
    if OutQuiet(h, run, n) && !run[n].Write? {
      var i :| 0 <= i < n && At(h, run, i).output && forall k :: i < k < n ==> !run[k].Write?;
      assert forall k :: i < k < n + 1 ==> !run[k].Write?;
    }
    if OutQuiet(h, run, n + 1) {
      var i :| 0 <= i < n + 1 && At(h, run, i).output && forall k :: i < k < n + 1 ==> !run[k].Write?;
      assert i == n || OutQuiet(h, run, n);
    }
  }

  lemma InQuietStep(h: Handle, run: seq<Step>, n: nat)
    requires n < |run|
    ensures InQuiet(h, run, n + 1) <==>
            Quieting(h, run, n) || (InQuiet(h, run, n) && !Consumes(h.availableBytes, run, n))
  {
    hide Quieting, Consumes;
    if InQuiet(h, run, n) && !Consumes(h.availableBytes, run, n) {
      var i :| 0 <= i < n && Quieting(h, run, i) && forall k :: i < k < n ==> !Consumes(h.availableBytes, run, k);
      assert forall k :: i < k < n + 1 ==> !Consumes(h.availableBytes, run, k);
    }
    if InQuiet(h, run, n + 1) {
      var i :| 0 <= i < n + 1 && Quieting(h, run, i) && forall k :: i < k < n + 1 ==>
        !Consumes(h.availableBytes, run, k);
      assert i == n || InQuiet(h, run, n);
    }
  }

  lemma {:induction false} InFlag(h: Handle, run: seq<Step>, n: nat)
    requires h.readEnabled && n <= |run|
    ensures State(h, run[..n]).readEnabled <==> !InQuiet(h, run, n)
    decreases n
  {
    if n > 0 {
      InFlag(h, run, n - 1);
      StateStep(h, run, n - 1);
      CountIsUnread(h, run, n);
      hide State, InQuiet, Unread, Remaining;
      InQuietStep(h, run, n - 1);
    }
  }

  lemma {:induction false} OutFlag(h: Handle, run: seq<Step>, n: nat)
    requires h.writeEnabled && n <= |run|
    ensures State(h, run[..n]).writeEnabled <==> !OutQuiet(h, run, n)
    decreases n
  {
    if n > 0 {
      OutFlag(h, run, n - 1);
      StateStep(h, run, n - 1);
      hide State, OutQuiet, Remaining;
      OutQuietStep(h, run, n - 1);
    }
  }

  lemma {:induction false} CloseFlag(h: Handle, run: seq<Step>, n: nat)
    requires h.closeEnabled && n <= |run|
    ensures State(h, run[..n]).closeEnabled <==> !CloseQuiet(h, run, n)
    decreases n
  {
    if n > 0 {
      CloseFlag(h, run, n - 1);
      StateStep(h, run, n - 1);
      hide State, Remaining;
      assert CloseQuiet(h, run, n) <==> CloseQuiet(h, run, n - 1) || At(h, run, n - 1).closed;
    }
  }

  /**
   * The three flags say exactly which events must wait: nothing else is ever suppressed, and nothing that must wait
   * slips through.
   */
  lemma Flags(h: Handle, run: seq<Step>, n: nat)
    requires h.writeEnabled && h.readEnabled && h.closeEnabled && n <= |run|
    ensures State(h, run[..n]).writeEnabled <==> !OutQuiet(h, run, n)
    ensures State(h, run[..n]).readEnabled <==> !InQuiet(h, run, n)
    ensures State(h, run[..n]).closeEnabled <==> !CloseQuiet(h, run, n)
  {
    hide *;
    InFlag(h, run, n);
    OutFlag(h, run, n);
    CloseFlag(h, run, n);
  }

  /**
   * Over all interleavings of the two threads: an out-event is delivered exactly when it is signalled and a write
   * separates it from every earlier delivery; an in-event exactly when it is signalled and the input announced by
   * every earlier quieting delivery has been consumed; a close-event exactly when it is the first one signalled.
   */
  lemma EdgesAreSimulated(h: Handle, run: seq<Step>, j: nat)
    requires h.writeEnabled && h.readEnabled && h.closeEnabled && j < |run| && run[j].ToggleEvents?
    ensures At(h, run, j).output <==>
            && run[j].raw.output
            && forall i :: 0 <= i < j && At(h, run, i).output ==> exists k :: i < k < j && run[k].Write?
    ensures At(h, run, j).input <==>
            && run[j].raw.input
            && forall i :: 0 <= i < j && Quieting(h, run, i) ==>
                 exists k :: i < k < j && Consumes(h.availableBytes, run, k)
    ensures At(h, run, j).closed <==>
            run[j].raw.closed && forall i :: 0 <= i < j ==> !(run[i].ToggleEvents? && run[i].raw.closed)
  {
    Flags(h, run, j);
    CloseSignalled(h, run, j);
    hide State, Consumes;
    forall i | 0 <= i < j
      ensures Quieting(h, run, i) ==> At(h, run, i).input
    {
    }
  }

  /** Some close-event was delivered exactly when one was signalled. */
  lemma {:induction false} CloseSignalled(h: Handle, run: seq<Step>, n: nat)
    requires h.writeEnabled && h.readEnabled && h.closeEnabled && n <= |run|
    ensures CloseQuiet(h, run, n) <==> exists i :: 0 <= i < n && run[i].ToggleEvents? && run[i].raw.closed
    decreases n
  {
    if n > 0 {
      CloseSignalled(h, run, n - 1);
      Flags(h, run, n - 1);
      hide State;
      assert At(h, run, n - 1).closed <==>
             run[n - 1].ToggleEvents? && run[n - 1].raw.closed && !CloseQuiet(h, run, n - 1);
      assert CloseQuiet(h, run, n) <==> CloseQuiet(h, run, n - 1) || At(h, run, n - 1).closed;
    }
  }

  /** The same in terms of pairs of deliveries. */
  lemma DeliveriesAreSeparated(h: Handle, run: seq<Step>, i: nat, j: nat)
    requires h.writeEnabled && h.readEnabled && h.closeEnabled && i < j < |run|
    ensures At(h, run, i).output && At(h, run, j).output ==> exists k :: i < k < j && run[k].Write?
    ensures Quieting(h, run, i) && At(h, run, j).input ==> exists k :: i < k < j && Consumes(h.availableBytes, run, k)
    ensures !(At(h, run, i).closed && At(h, run, j).closed)
  {
    if run[j].ToggleEvents? {
      EdgesAreSimulated(h, run, j);
    }
  }

  class IOHandle {
    var writeEventsEnabled: bool
    var readEventsEnabled: bool
    var closeEventsEnabled: bool
    var availableBytes: int

    /** The count of available bytes is not initialised. */
    constructor (uninitialised: int)
      ensures View() == Handle(true, true, true, uninitialised)
    {
      writeEventsEnabled, readEventsEnabled, closeEventsEnabled, availableBytes := true, true, true, uninitialised;
    }

    ghost function View(): (h: Handle)
      reads this
    {
      Handle(writeEventsEnabled, readEventsEnabled, closeEventsEnabled, availableBytes)
    }

    method Read(result: int)
      modifies this
      ensures View() == After(old(View()), Step.Read(result))
    {
      if result > 0 {
        availableBytes := availableBytes - if availableBytes >= result then result else availableBytes;
      }
      if availableBytes == 0 || result < 0 {
        readEventsEnabled := true;
      }
    }

    method Write()
      modifies this
      ensures View() == After(old(View()), Step.Write)
    {
      writeEventsEnabled := true;
    }

    method Accept()
      modifies this
      ensures View() == After(old(View()), Step.Accept)
    {
      readEventsEnabled := true;
    }

    method AvailableBytes(result: int) returns (available: int)
      modifies this
      ensures View() == After(old(View()), Step.AvailableBytes(result)) && available == availableBytes >= 0
    {
      available := if result < 0 then 1 else result;
      availableBytes := available;
    }

    /** Removes suppressed events from the mask and suppresses those it lets through. */
    method ToggleEvents(raw: Events, bytes: int) returns (mask: Events)
      modifies this
      ensures View() == After(old(View()), Step.ToggleEvents(raw, bytes))
      ensures mask == Delivered(old(View()), Step.ToggleEvents(raw, bytes))
    {
      mask := raw;
      if !writeEventsEnabled {
        mask := mask.(output := false);
      }
      if mask.output {
        writeEventsEnabled := false;
      }
      if !readEventsEnabled {
        mask := mask.(input := false);
      }
      if mask.input {
        if bytes != 0 {
          readEventsEnabled := false;
        }
        if mask.closed {
          readEventsEnabled := false;
        }
      }
      if !closeEventsEnabled {
        mask := mask.(closed := false);
      }
      if mask.closed {
        closeEventsEnabled := false;
      }
    }
  }
}
