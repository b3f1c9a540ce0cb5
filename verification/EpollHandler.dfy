/** The Linux event handler as an object over descriptor objects, refining the state machine step by step. */
module EpollHandler {
  import opened Flags
  import opened DescriptorTables
  import opened PriorityQueues
  import DescSpec = DescriptorSpec
  import Spec = EpollSpec
  import Proofs = EpollProofs
  import Heap = HeapSpec

  class EventHandlerImplementation {
    const table: DescriptorTable
    const timeoutQueue: TimeoutQueue<Port>
    var socketMap: map<int, nat>
    var epoll: map<int, Spec.Registration>
    var nextId: nat
    var timerFd: Timespec
    var shutdown: bool
    var log: seq<Spec.Record>
    // The state of the state machine that this object represents, and every object it owns.
    ghost var loop: Spec.Loop
    ghost var repr: set<object>

    /** The three parts of the handler do not overlap. */
    ghost predicate Valid()
      reads this, repr
    {
      && this in repr && table in repr && table.repr <= repr && this !in table.repr && table.Valid()
      && timeoutQueue in repr && timeoutQueue.timeouts in repr && timeoutQueue.timeouts.minHeap in repr
      && timeoutQueue !in table.repr && timeoutQueue.timeouts !in table.repr
      && timeoutQueue.timeouts.minHeap !in table.repr
      && timeoutQueue.Valid()
      && loop == Spec.Loop(table.views, socketMap, epoll, nextId, timeoutQueue.Contents(), timerFd,
                           shutdown, log, loop.faults)
    }

    constructor ()
      ensures Valid() && fresh(repr) && loop == Spec.Start()
    {
      table := new DescriptorTable();
      timeoutQueue := new TimeoutQueue<Port>();
      socketMap, epoll, nextId := map[], map[], 0;
      timerFd, shutdown, log := Timespec(0, 0), false, [];
      loop := Spec.Start();
      new;
      repr := {this, timeoutQueue, timeoutQueue.timeouts, timeoutQueue.timeouts.minHeap} + table.repr;
    }

    // ---------- the interest set ----------

    method NotifyAllPorts(id: nat, events: Events)
      requires Valid() && id in loop.infos
      modifies repr
      ensures Valid() && fresh(repr - old(repr)) && loop == Spec.NotifyAllPorts(old(loop), id, events)
    {
      hide DescriptorTable.Valid, TimeoutQueue.Valid, DescSpec.NotifyAll;
      var ports := table.NotifyAllDartPorts(id);
      log := log + [Spec.Broadcast(id, ports, events)];
      loop := Spec.NotifyAllPorts(loop, id, events);
      repr := repr + table.repr;
    }

    method AddToEpollInstance(id: nat, accepted: bool)
      requires Valid() && id in loop.infos
      modifies repr
      ensures Valid() && fresh(repr - old(repr)) && loop == Spec.AddToEpoll(old(loop), id, accepted)
    {
      hide DescriptorTable.Valid, TimeoutQueue.Valid, Spec.NotifyAllPorts;
      var fd := table.Fd(id);
      var status := accepted && fd !in epoll;
      loop := Spec.Check(loop, fd !in epoll, Spec.AlreadyRegistered);
      if status {
        var events := EPOLLRDHUP | PollEvents(table.Mask(id));
        if !table.IsListeningSocket(id) {
          events := events | EPOLLET;
        }
        epoll := epoll[fd := Spec.Registration(id, events)];
        loop := loop.(epoll := epoll);
        assert events == Spec.WantedEvents(loop.infos[id].d);
      } else {
        NotifyAllPorts(id, CLOSE_EVENT);
      }
    }

    method RemoveFromEpollInstance(id: nat)
      requires Valid() && id in loop.infos
      modifies this
      ensures Valid() && repr == old(repr) && loop == Spec.RemoveFromEpoll(old(loop), id)
    {
      hide DescriptorTable.Valid, TimeoutQueue.Valid;
      epoll := epoll - {table.Fd(id)};
      loop := loop.(epoll := epoll);
    }

    method UpdateEpollInstance(oldMask: Events, id: nat, accepted: bool)
      requires Valid() && id in loop.infos
      modifies repr
      ensures Valid() && fresh(repr - old(repr)) && loop == Spec.UpdateEpoll(old(loop), oldMask, id, accepted)
    {
      hide DescriptorTable.Valid, TimeoutQueue.Valid, Spec.AddToEpoll;
      var newMask := table.Mask(id);
      if oldMask != 0 && newMask == 0 {
        RemoveFromEpollInstance(id);
      } else if oldMask == 0 && newMask != 0 {
        AddToEpollInstance(id, accepted);
      } else if oldMask != 0 && newMask != 0 && oldMask != newMask {
        loop := Spec.Check(loop, loop.infos[id].d.Single?, Spec.ListeningMaskChange);
        RemoveFromEpollInstance(id);
        AddToEpollInstance(id, accepted);
      }
    }

    // ---------- reports of the kernel ----------

    method UpdateTimerFd()
      requires Valid()
      modifies this
      ensures Valid() && repr == old(repr) && loop == Spec.UpdateTimerFd(old(loop))
    {
      hide DescriptorTable.Valid;
      var some := timeoutQueue.HasTimeout();
      if some {
        var millis := timeoutQueue.CurrentTimeout();
        timerFd := Timespec(millis / 1000, (millis % 1000) * 1000000);
      } else {
        timerFd := Timespec(0, 0);
      }
      loop := loop.(armed := timerFd);
    }

    method FireTimer(now: int)
      requires Valid() && loop.timers != []
      modifies repr
      ensures Valid() && fresh(repr - old(repr)) && loop == Spec.FireTimer(old(loop), now)
    {
      hide DescriptorTable.Valid, TimeoutQueue.Valid, TimeoutQueue.Contents, Heap.RemoveAt;
      var port := timeoutQueue.CurrentPort();
      var deadline := timeoutQueue.CurrentTimeout();
      log := log + [Spec.TimerFired(port, deadline, now)];
      timeoutQueue.RemoveCurrent();
      loop := Spec.FireTimer(loop, now);
      repr := repr + {timeoutQueue.timeouts.minHeap};
    }

    method HandleTimer(now: int)
      requires Valid()
      modifies repr
      ensures Valid() && fresh(repr - old(repr)) && loop == Spec.HandleTimer(old(loop), now)
    {
      hide DescriptorTable.Valid, Spec.FireTimer;
      var some := timeoutQueue.HasTimeout();
      if some {
        FireTimer(now);
      }
      UpdateTimerFd();
    }

    /** Picks the port in turn, which spends a token. */
    method TakeTurn(id: nat, eventMask: Events) returns (port: Port)
      requires Valid() && id in loop.infos && DescSpec.Mask(loop.infos[id].d) != 0
      modifies repr
      ensures Valid() && fresh(repr - old(repr))
      ensures var d := old(loop).infos[id].d;
              && port == DescSpec.NextNotify(d).1
              && loop == Spec.SetDescriptor(
                           Spec.Check(Spec.Check(old(loop), d.Single? || eventMask == IN_EVENT, Spec.ListeningReport),
                                      port != ILLEGAL_PORT, Spec.NoPort),
                           id, DescSpec.NextNotify(d).0)
    {
      hide DescriptorTable.Valid, TimeoutQueue.Valid, TimeoutQueue.Contents, DescSpec.NextNotify, DescSpec.Mask;
      ghost var d := loop.infos[id].d;
      port := table.NextNotifyDartPort(id);
      loop := Spec.Check(Spec.Check(loop, d.Single? || eventMask == IN_EVENT, Spec.ListeningReport),
                         port != ILLEGAL_PORT, Spec.NoPort);
      loop := Spec.SetDescriptor(loop, id, DescSpec.NextNotify(d).0);
      repr := repr + table.repr;
    }

    method HandleIo(id: nat, eventMask: Events, accepted: bool)
      requires Valid() && id in loop.infos && DescSpec.Mask(loop.infos[id].d) != 0
      modifies repr
      ensures Valid() && fresh(repr - old(repr)) && loop == Spec.HandleIo(old(loop), id, eventMask, accepted)
    {
      hide DescriptorTable.Valid, TimeoutQueue.Valid, TimeoutQueue.Contents;
      hide Spec.UpdateEpoll, Spec.Check, DescSpec.NextNotify, DescSpec.Mask;
      var oldMask := table.Mask(id);
      var port := TakeTurn(id, eventMask);
      UpdateEpollInstance(oldMask, id, accepted);
      Post(Spec.Notified(id, port, eventMask));
    }

    method HandleReady(id: nat, events: bv32, accepted: bool)
      requires Valid() && id in loop.infos && DescSpec.Mask(loop.infos[id].d) != 0
      modifies repr
      ensures Valid() && fresh(repr - old(repr)) && loop == Spec.HandleReady(old(loop), id, events, accepted)
    {
      hide DescriptorTable.Valid, TimeoutQueue.Valid, Spec.UpdateEpoll, Spec.HandleIo, EventMask;
      var oldMask := table.Mask(id);
      var eventMask := EventMask(events);
      if eventMask & ERROR_EVENT != 0 {
        NotifyAllPorts(id, eventMask);
        UpdateEpollInstance(oldMask, id, accepted);
      } else if eventMask != 0 {
        HandleIo(id, eventMask, accepted);
      }
    }

    // ---------- interrupt messages ----------

    method GetDescriptorInfo(fd: int, listening: bool) returns (id: nat)
      requires Valid() && Proofs.Linked(loop)
      modifies repr
      ensures Valid() && fresh(repr - old(repr))
      ensures loop == Spec.GetDescriptorInfo(old(loop), fd, listening).0
      ensures id == Spec.GetDescriptorInfo(old(loop), fd, listening).1 && id in loop.infos
    {
      hide DescriptorTable.Valid, TimeoutQueue.Valid, TimeoutQueue.Contents;
      if fd in socketMap {
        id := socketMap[fd];
      } else {
        id := nextId;
        table.Create(id, fd, listening);
        socketMap := socketMap[fd := id];
        nextId := nextId + 1;
        loop := Spec.GetDescriptorInfo(loop, fd, listening).0;
        repr := repr + table.repr;
      }
    }

    method WithoutPort(id: nat, port: Port)
      requires Valid() && id in loop.infos
      modifies repr
      ensures Valid() && fresh(repr - old(repr)) && loop == Spec.WithoutPort(old(loop), id, port)
    {
      hide DescriptorTable.Valid, TimeoutQueue.Valid, TimeoutQueue.Contents, DescSpec.RemovePort;
      if port != ILLEGAL_PORT {
        table.RemovePort(id, port);
      }
      loop := Spec.WithoutPort(loop, id, port);
      repr := repr + table.repr;
    }

    /** Takes a descriptor out of the socket map and deletes it. */
    method Forget(id: nat, fd: int, newMask: Events)
      requires Valid() && id in loop.infos
      modifies repr
      ensures Valid() && fresh(repr - old(repr))
      ensures loop == Spec.Check(old(loop), newMask == 0, Spec.MaskOnClose)
                      .(sockets := old(loop).sockets - {fd}, infos := old(loop).infos - {id})
    {
      hide DescriptorTable.Valid, TimeoutQueue.Valid, TimeoutQueue.Contents;
      socketMap := socketMap - {fd};
      table.Delete(id);
      loop := Spec.Check(loop, newMask == 0, Spec.MaskOnClose)
        .(sockets := loop.sockets - {fd}, infos := loop.infos - {id});
    }

    method Post(r: Spec.Record)
      requires Valid()
      modifies this
      ensures Valid() && repr == old(repr) && loop == Spec.Logged(old(loop), [r])
    {
      hide DescriptorTable.Valid, TimeoutQueue.Valid, TimeoutQueue.Contents;
      log := log + [r];
      loop := Spec.Logged(loop, [r]);
    }

    method HandleClose(id: nat, port: Port, closeSafe: bool, accepted: bool)
      requires Valid() && id in loop.infos
      modifies repr
      ensures Valid() && fresh(repr - old(repr)) && loop == Spec.HandleClose(old(loop), id, port, closeSafe, accepted)
    {
      hide DescriptorTable.Valid, TimeoutQueue.Valid, TimeoutQueue.Contents;
      hide DescSpec.Mask, DescSpec.RemovePort, Spec.UpdateEpoll;
      var oldMask, fd := table.Mask(id), table.Fd(id);
      var listening := table.IsListeningSocket(id);
      WithoutPort(id, port);
      var newMask := table.Mask(id);
      UpdateEpollInstance(oldMask, id, accepted);
      if !listening || closeSafe {
        Forget(id, fd, newMask);
      }
      Post(Spec.Destroyed(port));
    }

    method WithTokens(id: nat, port: Port, count: nat)
      requires Valid() && id in loop.infos && port in DescSpec.Ports(loop.infos[id].d)
      modifies repr
      ensures Valid() && fresh(repr - old(repr)) && loop == Spec.WithTokens(old(loop), id, port, count)
    {
      hide DescriptorTable.Valid, TimeoutQueue.Valid, TimeoutQueue.Contents, DescSpec.ReturnTokensTo;
      table.ReturnTokens(id, port, count);
      log := log + [Spec.Returned(id, port, count)];
      loop := Spec.WithTokens(loop, id, port, count);
      repr := repr + table.repr;
    }

    method HandleReturn(id: nat, port: Port, count: nat, accepted: bool)
      requires Valid() && id in loop.infos && port in DescSpec.Ports(loop.infos[id].d)
      modifies repr
      ensures Valid() && fresh(repr - old(repr)) && loop == Spec.HandleReturn(old(loop), id, port, count, accepted)
    {
      hide DescriptorTable.Valid, TimeoutQueue.Valid, TimeoutQueue.Contents, Spec.UpdateEpoll, DescSpec.Mask;
      var oldMask := table.Mask(id);
      WithTokens(id, port, count);
      UpdateEpollInstance(oldMask, id, accepted);
    }

    method WithMask(id: nat, port: Port, events: Events)
      requires Valid() && id in loop.infos && port != ILLEGAL_PORT
      modifies repr
      ensures Valid() && fresh(repr - old(repr)) && loop == Spec.WithMask(old(loop), id, port, events)
    {
      hide DescriptorTable.Valid, TimeoutQueue.Valid, TimeoutQueue.Contents, DescSpec.SetPortAndMask, DescSpec.Ports;
      hide Spec.CheckMask;
      var known := table.IsAttached(id, port);
      table.SetPortAndMask(id, port, events);
      log := log + (if known then [] else [Spec.Attached(id, port)]);
      loop := Spec.WithMask(loop, id, port, events);
      repr := repr + table.repr;
    }

    method HandleSetMask(id: nat, port: Port, events: Events, accepted: bool)
      requires Valid() && id in loop.infos && port != ILLEGAL_PORT
      modifies repr
      ensures Valid() && fresh(repr - old(repr)) && loop == Spec.HandleSetMask(old(loop), id, port, events, accepted)
    {
      hide DescriptorTable.Valid, TimeoutQueue.Valid, TimeoutQueue.Contents, Spec.UpdateEpoll, DescSpec.Mask;
      var oldMask := table.Mask(id);
      WithMask(id, port, events);
      UpdateEpollInstance(oldMask, id, accepted);
    }

    method HandleMessage(m: Spec.Message)
      requires Valid() && Proofs.Inv(loop) && Proofs.MessageLegal(loop, m)
      modifies repr
      ensures Valid() && fresh(repr - old(repr)) && loop == Spec.HandleMessage(old(loop), m)
    {
      hide DescriptorTable.Valid, TimeoutQueue.Valid, TimeoutQueue.Contents;
      match m {
        case TimerMessage(port, timeout) =>
          SetTimer(port, timeout);
          UpdateTimerFd();
        case ShutdownMessage =>
          shutdown := true;
          loop := loop.(shutdown := true);
        case SocketMessage(_, _, _, _, _) =>
          HandleSocket(m);
      }
    }

    method SetTimer(port: Port, timeout: int)
      requires Valid()
      modifies repr
      ensures Valid() && fresh(repr - old(repr))
      ensures var timers := Heap.UpdateTimeout(old(loop).timers, port, timeout);
              loop == Spec.Logged(old(loop).(timers := timers), [Spec.TimerSet(port, timeout)])
    {
      hide DescriptorTable.Valid, TimeoutQueue.Valid, TimeoutQueue.Contents, Heap.UpdateTimeout;
      timeoutQueue.UpdateTimeout(port, timeout);
      log := log + [Spec.TimerSet(port, timeout)];
      loop := loop.(timers := Heap.UpdateTimeout(loop.timers, port, timeout));
      loop := Spec.Logged(loop, [Spec.TimerSet(port, timeout)]);
      repr := repr + {timeoutQueue.timeouts.minHeap};
    }

    method HandleSocket(m: Spec.Message)
      requires Valid() && Proofs.Inv(loop) && m.SocketMessage? && Proofs.MessageLegal(loop, m)
      modifies repr
      ensures Valid() && fresh(repr - old(repr)) && loop == Spec.HandleSocket(old(loop), m)
    {
      hide DescriptorTable.Valid, TimeoutQueue.Valid, TimeoutQueue.Contents;
      hide Spec.HandleClose, Spec.HandleReturn, Spec.HandleSetMask, Decode, IsListening;
      if m.fd == -1 {
        return;
      }
      var id := GetDescriptorInfo(m.fd, IsListening(m.data));
      match Decode(m.data) {
        case ShutdownRead => loop := Spec.Check(loop, loop.infos[id].d.Single?, Spec.ListeningShutdown);
        case ShutdownWrite => loop := Spec.Check(loop, loop.infos[id].d.Single?, Spec.ListeningShutdown);
        case Close => HandleClose(id, m.port, m.closeSafe, m.accepted);
        case ReturnTokens(count) => HandleReturn(id, m.port, count, m.accepted);
        case SetEventMask(events) => HandleSetMask(id, m.port, events, m.accepted);
        case Unreachable => assert false;
      }
    }

    // ---------- the loops ----------

    method HandleInterruptFd(messages: seq<Spec.Message>)
      requires Valid() && Proofs.Inv(loop) && Proofs.MessagesLegal(loop, messages)
      modifies repr
      ensures Valid() && fresh(repr - old(repr)) && loop == Spec.HandleMessages(old(loop), messages)
    {
      hide DescriptorTable.Valid, TimeoutQueue.Valid, TimeoutQueue.Contents, Valid;
      hide Proofs.Inv, Proofs.MessageLegal, Spec.HandleMessage;
      assert messages[0..] == messages;
      for i := 0 to |messages|
        invariant Valid() && fresh(repr - old(repr)) && Proofs.Inv(loop)
        invariant Proofs.MessagesLegal(loop, messages[i..])
        invariant Spec.HandleMessages(loop, messages[i..]) == Spec.HandleMessages(old(loop), messages)
      {
        assert messages[i..][1..] == messages[i + 1..];
        Proofs.MessageKeepsInv(loop, messages[i]);
        HandleMessage(messages[i]);
      }
    }

    method HandleEvent(e: Spec.Event, now: int)
      requires Valid() && Proofs.Inv(loop) && Proofs.Deliverable(loop, [e])
      modifies repr
      ensures Valid() && fresh(repr - old(repr)) && loop == Spec.HandleEvent(old(loop), e, now)
    {
      hide DescriptorTable.Valid, TimeoutQueue.Valid, TimeoutQueue.Contents, Valid;
      hide Proofs.Inv, Spec.HandleReady, Spec.HandleTimer;
      match e.report {
        case InterruptReady =>
        case TimerReady => HandleTimer(now);
        case DescriptorReady(id, events) =>
          assert [e][0] == e;
          HandleReady(id, events, e.accepted);
      }
    }

    /** The batch, without the messages that an interrupt report announces. */
    method HandleReports(events: seq<Spec.Event>, now: int) returns (interruptSeen: bool)
      requires Valid() && Proofs.Inv(loop) && Proofs.Deliverable(loop, events) && Proofs.OncePerSource(events)
      modifies repr
      ensures Valid() && fresh(repr - old(repr)) && Proofs.Inv(loop)
      ensures loop == Spec.HandleReports(old(loop), events, now) && interruptSeen == Spec.InterruptSeen(events)
    {
      hide DescriptorTable.Valid, TimeoutQueue.Valid, TimeoutQueue.Contents, Valid;
      hide Proofs.Inv, Spec.HandleEvent;
      assert events[0..] == events;
      interruptSeen := false;
      for i := 0 to |events|
        invariant Valid() && fresh(repr - old(repr)) && Proofs.Inv(loop)
        invariant Proofs.Deliverable(loop, events[i..]) && Proofs.OncePerSource(events[i..])
        invariant Spec.HandleReports(loop, events[i..], now) == Spec.HandleReports(old(loop), events, now)
        invariant interruptSeen == Spec.InterruptSeen(events[..i])
      {
        var rest := events[i..];
        assert rest[1..] == events[i + 1..] && rest[0] == events[i];
        assert events[..i + 1] == events[..i] + [events[i]];
        if events[i].report.InterruptReady? {
          interruptSeen := true;
        }
        Proofs.EventKeepsInv(loop, rest, now);
        HandleEvent(events[i], now);
      }
      assert events[..|events|] == events;
    }

    method HandleEvents(events: seq<Spec.Event>, now: int, messages: seq<Spec.Message>)
      requires Valid() && Proofs.Inv(loop) && Proofs.RoundLegal(loop, Spec.Round(now, events, messages))
      modifies repr
      ensures Valid() && fresh(repr - old(repr)) && Proofs.Inv(loop)
      ensures loop == Spec.HandleRound(old(loop), Spec.Round(now, events, messages))
    {
      hide DescriptorTable.Valid, TimeoutQueue.Valid, TimeoutQueue.Contents, Valid;
      hide Proofs.Inv, Proofs.MessagesLegal, Spec.HandleReports, Spec.HandleMessages;
      Proofs.RoundKeepsInv(loop, Spec.Round(now, events, messages));
      Proofs.LegalIsDeliverable(loop, events, now);
      var interruptSeen := HandleReports(events, now);
      if interruptSeen {
        HandleInterruptFd(messages);
      }
    }

    /** The handler thread: one round for every return of epoll_wait until a shutdown message was handled. */
    method Poll(rounds: seq<Spec.Round>)
      requires Valid() && Proofs.Inv(loop) && Proofs.RunLegal(loop, rounds)
      modifies repr
      ensures Valid() && fresh(repr - old(repr)) && Proofs.Inv(loop) && loop == Spec.Poll(old(loop), rounds)
    {
      hide DescriptorTable.Valid, TimeoutQueue.Valid, TimeoutQueue.Contents;
      hide Proofs.Inv, Proofs.RoundLegal, Spec.HandleRound;
      assert rounds[0..] == rounds;
      var i := 0;
      while i < |rounds| && !shutdown
        invariant i <= |rounds| && Valid() && fresh(repr - old(repr)) && Proofs.Inv(loop)
        invariant Proofs.RunLegal(loop, rounds[i..])
        invariant Spec.Poll(loop, rounds[i..]) == Spec.Poll(old(loop), rounds)
      {
        assert rounds[i..][1..] == rounds[i + 1..];
        HandleEvents(rounds[i].events, rounds[i].now, rounds[i].messages);
        i := i + 1;
      }
    }
  }
}
