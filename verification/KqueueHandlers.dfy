/** The kqueue loop's registration code on descriptor objects, and its timer handling. */
module KqueueHandlers {
  import opened Flags
  import opened Kqueue
  import Spec = DescriptorSpec
  import Heap = HeapSpec
  import opened Descriptors
  import opened PriorityQueues

  class KqueueDescriptor {
    const info: DescriptorInfo
    var trackedByKqueue: bool
    // The kernel's registration for this descriptor.
    var kernel: Filters
    ghost var refused: bool

    ghost predicate Valid()
      reads this, info, info.repr
    {
      this !in info.repr && info.Valid()
    }

    ghost function View(): (w: Watch)
      reads this, info
    {
      Watch(info.view, trackedByKqueue, kernel, true, refused)
    }

    constructor (fd: int, listening: bool)
      ensures Valid() && fresh(info.repr) && View() == NewWatch(listening)
    {
      info := new DescriptorInfo(fd, listening);
      trackedByKqueue, kernel, refused := false, NO_FILTERS, false;
    }

    method RemoveFromKqueue()
      requires Valid()
      modifies this
      ensures Valid() && View() == Kqueue.RemoveFromKqueue(old(View()))
    {
      if trackedByKqueue {
        kernel := kernel.(read := false);
        kernel := kernel.(write := false);
        trackedByKqueue := false;
      }
    }

    method AddToKqueue(accepted: bool)
      requires Valid() && Kqueue.AddToKqueue(View(), accepted).sound
      modifies this, info.repr
      ensures Valid() && fresh(info.repr - old(info.repr)) && View() == Kqueue.AddToKqueue(old(View()), accepted)
    {
      hide DescriptorInfo.Valid, Spec.Mask, Spec.NotifyAll;
      assert !trackedByKqueue;
      var mask := info.Mask();
      var read, write := mask & IN_EVENT != 0, mask & OUT_EVENT != 0;
      assert read || write;
      var changes := 0;
      if read {
        changes := changes + 1;
      }
      if write {
        changes := changes + 1;
      }
      assert 0 < changes <= 2;
      if accepted {
        kernel := Filters(kernel.read || read, kernel.write || write);
        trackedByKqueue := true;
      } else {
        refused := true;
        var _ := info.NotifyAllDartPorts();
      }
    }

    method UpdateKQueueInstance(oldMask: Events, accepted: bool)
      requires Valid() && Kqueue.Update(View(), oldMask, accepted).sound
      modifies this, info.repr
      ensures Valid() && fresh(info.repr - old(info.repr)) && View() == Kqueue.Update(old(View()), oldMask, accepted)
    {
      hide DescriptorInfo.Valid, Spec.Mask, Kqueue.AddToKqueue, Kqueue.RemoveFromKqueue;
      var newMask := info.Mask();
      if oldMask != 0 && newMask == 0 {
        RemoveFromKqueue();
      } else if oldMask == 0 && newMask != 0 {
        AddToKqueue(accepted);
      } else if oldMask != 0 && newMask != 0 && oldMask != newMask {
        AddKeepsUnsound(Kqueue.RemoveFromKqueue(View().(sound := View().d.Single?)), accepted);
        RemoveKeepsSound(View().(sound := View().d.Single?));
        assert !info.IsListeningSocket();
        RemoveFromKqueue();
        AddToKqueue(accepted);
      }
    }

    /** Handles one event of a batch: the ports it is posted to. */
    method HandleEvent(e: KEvent) returns (ports: set<Port>)
      requires Valid() && Inv(View()) && Notifiable(View().d)
      modifies this, info.repr
      ensures Valid() && fresh(info.repr - old(info.repr)) && View() == Kqueue.HandleEvent(old(View()), e)
      ensures Inv(View())
      ensures ILLEGAL_PORT !in ports
      ensures ports == if e.error then Spec.Ports(old(View()).d) else {Spec.NextNotify(old(View()).d).1}
    {
      hide DescriptorInfo.Valid, Spec.Mask, Kqueue.Update, Spec.NotifyAll, Spec.NextNotify, Spec.Valid;
      EventKeepsInv(View(), e);
      EventIsSound(View());
      LegalPorts(View().d);
      var oldMask := info.Mask();
      if e.error {
        ports := info.NotifyAllDartPorts();
        UpdateKQueueInstance(oldMask, e.accepted);
      } else {
        var port := info.NextNotifyDartPort();
        assert port != ILLEGAL_PORT;
        ports := {port};
        UpdateKQueueInstance(oldMask, e.accepted);
      }
    }

    method SetEventMask(port: Port, events: Events, accepted: bool)
      requires Valid() && Inv(View()) && RoundLegal(View(), Message(SetMask(port, events), accepted))
      modifies this, info.repr
      ensures Valid() && fresh(info.repr - old(info.repr)) && Inv(View())
      ensures View() == Step(old(View()), Message(SetMask(port, events), accepted))
    {
      hide DescriptorInfo.Valid, Spec.Mask, Kqueue.Update, Spec.SetPortAndMask, Spec.Valid;
      CommandKeepsInv(View(), SetMask(port, events), accepted);
      var oldMask := info.Mask();
      info.SetPortAndMask(port, events);
      UpdateKQueueInstance(oldMask, accepted);
    }
  }

  lemma AddKeepsUnsound(w: Watch, accepted: bool)
    ensures Kqueue.AddToKqueue(w, accepted).sound ==> w.sound
  {
  }

  lemma RemoveKeepsSound(w: Watch)
    ensures Kqueue.RemoveFromKqueue(w).sound == w.sound && Kqueue.RemoveFromKqueue(w).d == w.d
  {
  }

  lemma LegalPorts(d: Spec.Descriptor)
    requires Spec.Valid(d)
    ensures ILLEGAL_PORT !in Spec.Ports(d)
  {
  }

  /** The queue after timer messages, the last one last. */
  function AfterMessages(timers: seq<Heap.Entry<Port>>, messages: seq<(Port, int)>): (r: seq<Heap.Entry<Port>>)
  {
    if messages == [] then timers
    else
      var n := |messages| - 1;
      Heap.UpdateTimeout(AfterMessages(timers, messages[..n]), messages[n].0, messages[n].1)
  }

  lemma AfterNext(timers: seq<Heap.Entry<Port>>, messages: seq<(Port, int)>, i: nat)
    requires i < |messages|
    ensures AfterMessages(timers, messages[..i + 1]) ==
            Heap.UpdateTimeout(AfterMessages(timers, messages[..i]), messages[i].0, messages[i].1)
  {
    assert messages[..i + 1][..i] == messages[..i];
  }

  /** No later message is about the same port. */
  predicate LastWord(messages: seq<(Port, int)>, i: nat)
    requires i < |messages|
  {
    forall j :: i < j < |messages| ==> messages[j].0 != messages[i].0
  }

  function EntryOf(message: (Port, int)): (e: Heap.Entry<Port>)
  {
    Heap.Entry(message.1, message.0)
  }

  /** A timer last set is queued at its time, one last cancelled is not. */
  ghost predicate Settled(timers: seq<Heap.Entry<Port>>, messages: seq<(Port, int)>)
  {
    forall i :: 0 <= i < |messages| && LastWord(messages, i) ==>
                  (EntryOf(messages[i]) in timers <==> messages[i].1 >= 0)
  }

  /** Every entry of the queue is somebody's last word. */
  ghost predicate NothingElse(timers: seq<Heap.Entry<Port>>, messages: seq<(Port, int)>)
  {
    forall e :: e in timers ==> exists i :: 0 <= i < |messages| && LastWord(messages, i) && EntryOf(messages[i]) == e
  }

  /** From an empty queue the messages leave each port with its last setting. */
  lemma {:induction false} MessagesSettle(messages: seq<(Port, int)>)
    ensures Heap.Unique(AfterMessages([], messages)) && Settled(AfterMessages([], messages), messages)
  {
    if messages != [] {
      hide Heap.UpdateTimeout, Heap.Unique;
      var n := |messages| - 1;
      var before := AfterMessages([], messages[..n]);
      MessagesSettle(messages[..n]);
      Heap.UpdateTimeoutEntries(before, messages[n].0, messages[n].1);
      forall i | 0 <= i < |messages| && LastWord(messages, i)
        ensures EntryOf(messages[i]) in AfterMessages([], messages) <==> messages[i].1 >= 0
      {
        if i < n {
          assert LastWord(messages[..n], i) && messages[..n][i] == messages[i];
        }
      }
    }
  }

  /** And nothing else is queued. */
  lemma {:induction false} NothingElseSettles(messages: seq<(Port, int)>)
    ensures NothingElse(AfterMessages([], messages), messages)
  {
    if messages != [] {
      hide Heap.UpdateTimeout, Heap.Unique, Settled, LastWord, EntryOf;
      var n := |messages| - 1;
      var before := AfterMessages([], messages[..n]);
      MessagesSettle(messages[..n]);
      NothingElseSettles(messages[..n]);
      Heap.UpdateTimeoutEntries(before, messages[n].0, messages[n].1);
      EntryOfIs(messages[n]);
      hide NothingElse;
      forall e | e in AfterMessages([], messages)
        ensures exists i :: 0 <= i < |messages| && LastWord(messages, i) && EntryOf(messages[i]) == e
      {
        OneOfThem(messages, before, e);
      }
    }
  }

  lemma EntryOfIs(message: (Port, int))
    ensures EntryOf(message) == Heap.Entry(message.1, message.0)
  {
  }

  lemma OneOfThem(messages: seq<(Port, int)>, before: seq<Heap.Entry<Port>>, e: Heap.Entry<Port>)
    requires messages != [] && NothingElse(before, messages[..|messages| - 1])
    requires e == EntryOf(messages[|messages| - 1]) || (e in before && e.value != messages[|messages| - 1].0)
    ensures exists i :: 0 <= i < |messages| && LastWord(messages, i) && EntryOf(messages[i]) == e
  {
    var n := |messages| - 1;
    if e == EntryOf(messages[n]) {
      assert LastWord(messages, n);
    } else {
      var i :| 0 <= i < n && LastWord(messages[..n], i) && EntryOf(messages[..n][i]) == e;
      assert LastWord(messages, i);
    }
  }

  /** Every cancellation leaves a gap that the last entry of the queue fits. */
  ghost predicate CancelsFit(messages: seq<(Port, int)>)
  {
    messages == [] ||
    var n := |messages| - 1;
    var timers := AfterMessages([], messages[..n]);
    && CancelsFit(messages[..n])
    && (messages[n].1 < 0 && Heap.HasValue(timers, messages[n].0) ==>
          Heap.LastFitsAt(timers, Heap.OffsetOf(timers, messages[n].0)))
  }

  /** Settings and fitting cancellations keep heap order. */
  lemma {:induction false} FittingKeepsHeap(messages: seq<(Port, int)>)
    requires CancelsFit(messages)
    ensures Heap.Heap(AfterMessages([], messages))
  {
    if messages != [] {
      hide Heap.UpdateTimeout, Heap.Heap, Heap.HasValue, Heap.LastFitsAt;
      var n := |messages| - 1;
      FittingKeepsHeap(messages[..n]);
      Heap.UpdateTimeoutKeepsHeapIff(AfterMessages([], messages[..n]), messages[n].0, messages[n].1);
    }
  }

  class KqueueTimers {
    const timeoutQueue: TimeoutQueue<Port>

    ghost predicate Valid()
      reads timeoutQueue, timeoutQueue.timeouts, timeoutQueue.timeouts.minHeap
    {
      timeoutQueue.Valid()
    }

    ghost function Contents(): (h: seq<Heap.Entry<Port>>)
      requires Valid()
      reads timeoutQueue, timeoutQueue.timeouts, timeoutQueue.timeouts.minHeap
    {
      timeoutQueue.Contents()
    }

    constructor ()
      ensures Valid() && Contents() == []
      ensures fresh(timeoutQueue) && fresh(timeoutQueue.timeouts) && fresh(timeoutQueue.timeouts.minHeap)
    {
      timeoutQueue := new TimeoutQueue<Port>();
    }

    /** The timer messages of one read: a negative time cancels the port's timer, any other sets it. */
    method HandleMessages(messages: seq<(Port, int)>)
      requires Valid()
      modifies timeoutQueue.timeouts, timeoutQueue.timeouts.minHeap
      ensures Valid() && timeoutQueue.timeouts == old(timeoutQueue.timeouts)
      ensures || timeoutQueue.timeouts.minHeap == old(timeoutQueue.timeouts.minHeap)
              || fresh(timeoutQueue.timeouts.minHeap)
      ensures Contents() == AfterMessages(old(Contents()), messages)
    {
      hide TimeoutQueue.Valid, TimeoutQueue.Contents;
      for i := 0 to |messages|
        invariant Valid() && timeoutQueue.timeouts == old(timeoutQueue.timeouts)
        invariant || timeoutQueue.timeouts.minHeap == old(timeoutQueue.timeouts.minHeap)
                  || fresh(timeoutQueue.timeouts.minHeap)
        invariant Contents() == AfterMessages(old(Contents()), messages[..i])
      {
        AfterNext(old(Contents()), messages, i);
        timeoutQueue.UpdateTimeout(messages[i].0, messages[i].1);
      }
      assert messages[..|messages|] == messages;
    }

    method GetTimeout(now: int) returns (millis: int)
      requires Valid()
      ensures millis == Kqueue.GetTimeout(Contents(), now)
    {
      var some := timeoutQueue.HasTimeout();
      if !some {
        return INFINITY_TIMEOUT;
      }
      var deadline := timeoutQueue.CurrentTimeout();
      millis := deadline - now;
      millis := if millis < 0 then 0 else millis;
    }

    /** The wait before the next poll; it outlasts no deadline while the queue is in heap order. */
    method NextWait(now: int) returns (w: Wait)
      requires Valid()
      ensures w == WaitFor(Contents(), now)
      ensures Heap.Heap(Contents()) ==> forall i :: 0 <= i < |Contents()| ==> WakesBy(w, now, Contents()[i].priority)
    {
      var millis := GetTimeout(now);
      if millis > MAX_INT32 {
        millis := MAX_INT32;
      }
      if millis >= 0 {
        var secs := millis / 1000;
        w := AtMost(Timespec(secs, (millis - secs * 1000) * 1000000));
      } else {
        w := Forever;
      }
      if Heap.Heap(Contents()) {
        forall i | 0 <= i < |Contents()|
          ensures WakesBy(w, now, Contents()[i].priority)
        {
          WaitNeverOutlasts(Contents(), now, i);
        }
      }
    }

    /** Posts to the first port when its deadline has come, and to no other. */
    method HandleTimeout(now: int) returns (posted: seq<Port>)
      requires Valid()
      modifies timeoutQueue.timeouts, timeoutQueue.timeouts.minHeap
      ensures Valid() && timeoutQueue.timeouts == old(timeoutQueue.timeouts)
      ensures || timeoutQueue.timeouts.minHeap == old(timeoutQueue.timeouts.minHeap)
              || fresh(timeoutQueue.timeouts.minHeap)
      ensures if old(Contents()) != [] && old(Contents())[0].priority <= now
              then posted == [old(Contents())[0].value] && Contents() == Heap.RemoveAt(old(Contents()), 0)
              else posted == [] && Contents() == old(Contents())
    {
      posted := [];
      var some := timeoutQueue.HasTimeout();
      if some {
        var deadline := timeoutQueue.CurrentTimeout();
        if deadline - now <= 0 {
          var port := timeoutQueue.CurrentPort();
          posted := [port];
          timeoutQueue.RemoveCurrent();
        }
      }
    }
  }

  /**
   * Timer messages are handled and the loop goes to sleep: forever exactly when no timer is set in the end, and if
   * every cancellation left a fitting gap not past any deadline last set.
   */
  method SleepAfter(messages: seq<(Port, int)>, now: int) returns (w: Wait)
    ensures w.Forever? <==> forall i :: 0 <= i < |messages| && LastWord(messages, i) ==> messages[i].1 < 0
    ensures CancelsFit(messages) ==>
              forall i :: 0 <= i < |messages| && LastWord(messages, i) && messages[i].1 >= 0 ==>
                WakesBy(w, now, messages[i].1)
  {
    hide *;
    var timers := new KqueueTimers();
    timers.HandleMessages(messages);
    w := timers.NextWait(now);
    SettledWakes(messages, now);
  }

  lemma SettledWakes(messages: seq<(Port, int)>, now: int)
    ensures
      var w := WaitFor(AfterMessages([], messages), now);
      && (w.Forever? <==> forall i :: 0 <= i < |messages| && LastWord(messages, i) ==> messages[i].1 < 0)
      && (CancelsFit(messages) ==>
            forall i :: 0 <= i < |messages| && LastWord(messages, i) && messages[i].1 >= 0 ==>
              WakesBy(w, now, messages[i].1))
  {
    hide WaitFor, WakesBy, AfterMessages, Heap.Heap, CancelsFit;
    var timers := AfterMessages([], messages);
    MessagesSettle(messages);
    NothingElseSettles(messages);
    WaitIsExact(timers, now);
    if timers != [] {
      assert timers[0] in timers;
    }
    if CancelsFit(messages) {
      FittingKeepsHeap(messages);
      forall i | 0 <= i < |messages| && LastWord(messages, i) && messages[i].1 >= 0
        ensures WakesBy(WaitFor(timers, now), now, messages[i].1)
      {
        assert EntryOf(messages[i]) in timers;
        var k :| 0 <= k < |timers| && timers[k] == EntryOf(messages[i]);
        WaitNeverOutlasts(timers, now, k);
      }
    }
  }
}
