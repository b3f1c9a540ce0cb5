/** What the interrupt messages of the Linux loop do: to the ports, to the kernel's interest set and to the run. */
module EpollCommands {
  import opened Flags
  import opened DescriptorSpec
  import opened DescriptorEffects
  import opened EpollSpec
  import opened EpollProofs

  // ---------- the interest set after a change ----------

  /**
   * The kernel watches `id` for the directions in `mask` and for hang-ups, edge-triggered when it is a connected
   * socket; and not at all for an empty mask.
   */
  ghost predicate Watches(l: Loop, id: Id, mask: Events)
    requires id in l.infos
  {
    var Info(fd, d) := l.infos[id];
    if mask == 0 then fd !in l.epoll
    else fd in l.epoll && l.epoll[fd].di == id && Asks(l.epoll[fd].events, mask, d.Single?)
  }

  predicate Asks(events: bv32, mask: Events, connected: bool)
  {
    && (events & EPOLLIN != 0 <==> mask & IN_EVENT != 0)
    && (events & EPOLLOUT != 0 <==> mask & OUT_EVENT != 0)
    && (events & EPOLLET != 0 <==> connected)
    && events & EPOLLRDHUP != 0 && events & !(EPOLLIN | EPOLLOUT | EPOLLRDHUP | EPOLLET) == 0
  }

  lemma AsksForMask(d: Descriptor)
    ensures Asks(WantedEvents(d), Mask(d), d.Single?)
  {
    hide Mask;
  }

  /** A registered descriptor is watched for its mask. */
  lemma RegisteredIsWatched(l: Loop, id: Id)
    requires Inv(l) && id in l.infos && l.infos[id].fd in l.epoll
    ensures Watches(l, id, Mask(l.infos[id].d)) && Mask(l.infos[id].d) != 0
  {
    assert MirrorAt(l, l.infos[id].fd);
    AsksForMask(l.infos[id].d);
  }

  /** Only object `id`, its registration and the records change. */
  ghost predicate OnlyOne(l: Loop, l': Loop, id: Id)
  {
    && id in l.infos && id in l'.infos && l'.infos[id].fd == l.infos[id].fd
    && l' == l.(infos := l.infos[id := l'.infos[id]], epoll := l'.epoll, log := l'.log)
    && l'.epoll - {l.infos[id].fd} == l.epoll - {l.infos[id].fd}
  }

  /**
   * Object `id` has become `d'`, with the records `rs`. The kernel watches the new mask if it differs from the old
   * one; or it has refused, and all ports were told of a close.
   */
  ghost predicate Settles(l: Loop, l': Loop, id: Id, d': Descriptor, rs: seq<Record>, accepted: bool)
  {
    && OnlyOne(l, l', id)
    && var mask := Mask(l.infos[id].d);
       if Mask(d') == mask then
         l'.infos[id].d == d' && l'.log == l.log + rs && l'.epoll == l.epoll
       else if accepted || Mask(d') == 0 then
         l'.infos[id].d == d' && l'.log == l.log + rs && Watches(l', id, Mask(d'))
       else
         && Pays(d', l'.infos[id].d, Ports(d')) && Watches(l', id, 0)
         && l'.log == l.log + rs + [Broadcast(id, Ports(d'), CLOSE_EVENT)]
  }

  lemma AddSettles(l: Loop, id: Id, accepted: bool)
    requires id in l.infos && l.infos[id].fd !in l.epoll && Mask(l.infos[id].d) != 0
    ensures
      var d, l' := l.infos[id].d, AddToEpoll(l, id, accepted);
      && OnlyOne(l, l', id)
      && (accepted ==> l'.infos[id].d == d && l'.log == l.log && Watches(l', id, Mask(d)))
      && (!accepted ==>
            && Pays(d, l'.infos[id].d, Ports(d)) && Watches(l', id, 0)
            && l'.log == l.log + [Broadcast(id, Ports(d), CLOSE_EVENT)])
  {
    var d := l.infos[id].d;
    hide Pays, NotifyAll, WantedEvents, Asks, Mask;
    BroadcastPays(d);
    AsksForMask(d);
    assert l.infos[id := l.infos[id]] == l.infos;
  }

  lemma RemoveSettles(l: Loop, id: Id)
    requires id in l.infos
    ensures
      var l' := RemoveFromEpoll(l, id);
      OnlyOne(l, l', id) && l'.infos == l.infos && l'.log == l.log && Watches(l', id, 0)
  {
    assert l.infos[id := l.infos[id]] == l.infos;
  }

  lemma OnlyOneTwice(l: Loop, m: Loop, r: Loop, id: Id)
    requires OnlyOne(l, m, id) && OnlyOne(m, r, id)
    ensures OnlyOne(l, r, id)
  {
  }

  lemma ChangedAlone(l: Loop, id: Id, d': Descriptor, rs: seq<Record>)
    requires Inv(l) && id in l.infos && d'.Single? == l.infos[id].d.Single?
    ensures
      var d, l1 := l.infos[id].d, Logged(SetDescriptor(l, id, d'), rs);
      && OnlyOne(l, l1, id) && l1.log == l.log + rs && l1.epoll == l.epoll && l1.infos[id].d == d'
      && (Mask(d) == 0 ==> Watches(l1, id, 0))
      && (d'.Single? || Mask(d) == 0 || Mask(d') == 0 || Mask(d') == Mask(d))
  {
    assert l.infos[id].fd in l.epoll ==> MirrorAt(l, l.infos[id].fd);
  }

  lemma Unwatched(l: Loop, id: Id)
    requires id in l.infos
    ensures Watches(l, id, 0) <==> l.infos[id].fd !in l.epoll
  {
  }

  /** The registration step after any change of one object. */
  lemma UpdateSettles(l: Loop, id: Id, d': Descriptor, rs: seq<Record>, accepted: bool)
    requires Inv(l) && id in l.infos && d'.Single? == l.infos[id].d.Single?
    ensures
      var l1 := Logged(SetDescriptor(l, id, d'), rs);
      Settles(l, UpdateEpoll(l1, Mask(l.infos[id].d), id, accepted), id, d', rs, accepted)
  {
    hide Inv, Mask, Watches, Pays, AddToEpoll, RemoveFromEpoll, OnlyOne, Logged, SetDescriptor;
    ChangedAlone(l, id, d', rs);
    var mask, l1 := Mask(l.infos[id].d), Logged(SetDescriptor(l, id, d'), rs);
    if Mask(d') != mask {
      if mask != 0 {
        RemoveSettles(l1, id);
        OnlyOneTwice(l, l1, RemoveFromEpoll(l1, id), id);
      }
      if Mask(d') != 0 {
        var l2 := if mask == 0 then l1 else RemoveFromEpoll(l1, id);
        Unwatched(l2, id);
        AddSettles(l2, id, accepted);
        OnlyOneTwice(l, l2, AddToEpoll(l2, id, accepted), id);
      }
    }
  }

  // ---------- one message ----------

  /** `l1` has object `id` for descriptor number `fd`: the one there was, or a new one without ports. */
  ghost predicate Finds(l: Loop, l1: Loop, id: Id, fd: int, listening: bool)
  {
    && id in l1.infos
    && if fd in l.sockets then l1 == l && id == l.sockets[fd]
       else
         && id !in l.infos && l1.infos[id].fd == fd && (l1.infos[id].d.Multiple? <==> listening)
         && Ports(l1.infos[id].d) == {} && Unspent(l1.infos[id].d)
         && l1 == l.(infos := l.infos[id := l1.infos[id]], sockets := l.sockets[fd := id], nextId := l1.nextId)
  }

  /** The last listener of a number takes the object with it; another one only leaves. */
  ghost predicate Closes(l: Loop, l': Loop, id: Id, port: Port, closeSafe: bool)
    requires id in l.infos
  {
    var Info(fd, d) := l.infos[id];
    if d.Single? || closeSafe then
      && l' == l.(infos := l.infos - {id}, sockets := l.sockets - {fd}, epoll := l.epoll - {fd}, log := l'.log)
      && l'.log == l.log + [Destroyed(port)]
    else exists d' :: Leaves(d, d', port) && Settles(l, l', id, d', [Destroyed(port)], true)
  }

  /** The command of message `m` has been carried out on object `id`. */
  ghost predicate Obeys(l: Loop, l': Loop, id: Id, m: Message)
    requires id in l.infos && m.SocketMessage?
  {
    var d := l.infos[id].d;
    match Decode(m.data)
    case ShutdownRead => l' == l
    case ShutdownWrite => l' == l
    case Close => Closes(l, l', id, m.port, m.closeSafe)
    case ReturnTokens(count) =>
      exists d' ::
        Earns(d, d', m.port, count) && Settles(l, l', id, d', [Returned(id, m.port, count)], m.accepted)
    case SetEventMask(events) =>
      exists d' ::
        && Listens(d, d', m.port, events)
        && Settles(l, l', id, d', if m.port in Ports(d) then [] else [Attached(id, m.port)], m.accepted)
    case Unreachable => true
  }

  lemma OkIsUnspent(l: Loop, id: Id)
    requires Inv(l) && id in l.infos
    ensures Valid(l.infos[id].d) && Unspent(l.infos[id].d)
  {
    assert DescriptorOk(l.infos[id].d);
  }

  /** The port listens for the events, with its tokens, and the kernel watches the new mask. */
  lemma SetMaskEffect(l: Loop, id: Id, port: Port, events: Events, accepted: bool)
    requires Inv(l) && id in l.infos && port != ILLEGAL_PORT && events & !(IN_EVENT | OUT_EVENT) == 0
    requires var d := l.infos[id].d;
             if d.Single? then d.port == ILLEGAL_PORT || d.port == port else events == 0 || events == IN_EVENT
    ensures
      var d, l' := l.infos[id].d, HandleSetMask(l, id, port, events, accepted);
      exists d' ::
        && Listens(d, d', port, events)
        && Settles(l, l', id, d', if port in Ports(d) then [] else [Attached(id, port)], accepted)
  {
    hide Inv, UpdateEpoll, SetPortAndMask, Settles, Listens, Valid, Mask;
    var d := l.infos[id].d;
    var d' := SetPortAndMask(d, port, events);
    var rs := if port in Ports(d) then [] else [Attached(id, port)];
    OkIsUnspent(l, id);
    SetMaskListens(d, port, events);
    assert d'.Single? == d.Single? by { SetKeepsKind(d, port, events); }
    UpdateSettles(l, id, d', rs, accepted);
    assert WithMask(l, id, port, events) == Logged(SetDescriptor(l, id, d'), rs);
  }

  /**
   * While a connected socket has tokens, the kernel watches exactly the events it was last told to listen for; only
   * a registration that the kernel refused earlier is not repeated for the same events.
   */
  lemma ConnectedIsWatched(l: Loop, id: Id, port: Port, events: Events)
    requires Inv(l) && id in l.infos && port != ILLEGAL_PORT && events & !(IN_EVENT | OUT_EVENT) == 0
    requires var d := l.infos[id].d; d.Single? && d.tokens > 0 && (d.port == ILLEGAL_PORT || d.port == port)
    requires NoneRefused(l.log) || events != Mask(l.infos[id].d)
    ensures
      var l' := HandleSetMask(l, id, port, events, true);
      id in l'.infos && Mask(l'.infos[id].d) == events && Watches(l', id, events)
  {
    var d := l.infos[id].d;
    SetMaskEffect(l, id, port, events, true);
    if events == Mask(d) {
      InterestSetMirrorsMasks(l, id);
      if l.infos[id].fd in l.epoll {
        RegisteredIsWatched(l, id);
      }
    }
    hide Inv, HandleSetMask, Asks, Pays, OthersAsBefore, TurnsAsBefore, NoneRefused;
  }

  lemma SetKeepsKind(d: Descriptor, port: Port, events: Events)
    ensures SetPortAndMask(d, port, events).Single? == d.Single?
  {
  }

  /** The port has its tokens back, and the kernel watches again what it can be told. */
  lemma ReturnEffect(l: Loop, id: Id, port: Port, count: nat, accepted: bool)
    requires Inv(l) && id in l.infos && port in Ports(l.infos[id].d) && count <= Outstanding(l.log, id, port)
    ensures
      var l' := HandleReturn(l, id, port, count, accepted);
      exists d' ::
        Earns(l.infos[id].d, d', port, count) && Settles(l, l', id, d', [Returned(id, port, count)], accepted)
  {
    assert DescriptorOk(l.infos[id].d) && BalanceAt(l.log, id, l.infos[id].d);
    hide Inv, UpdateEpoll, ReturnTokensTo, Settles, Earns, Valid, Mask, Outstanding, BalanceAt;
    var d := l.infos[id].d;
    var d' := ReturnTokensTo(d, port, count);
    ReturnEarns(d, port, count);
    ReturnBalance(l.log, id, d, port, count);
    UpdateSettles(l, id, d', [Returned(id, port, count)], accepted);
  }

  /** Without the port the mask is empty or as before, so nothing is registered. */
  lemma WithoutPortSettles(l: Loop, id: Id, port: Port, accepted: bool)
    requires Inv(l) && id in l.infos
    requires var d := l.infos[id].d; d.Single? ==> d.port == ILLEGAL_PORT || d.port == port
    ensures
      var d := l.infos[id].d;
      var d', l1 := RemovePort(d, port), WithoutPort(l, id, port);
      && Leaves(d, d', port) && d'.Single? == d.Single? && Valid(d') && (Mask(d') == 0 || Mask(d') == Mask(d))
      && id in l1.infos && l1.infos[id].d == d'
      && Settles(l, UpdateEpoll(l1, Mask(d), id, accepted), id, d', [], true)
  {
    var d := l.infos[id].d;
    var d' := RemovePort(d, port);
    OkIsUnspent(l, id);
    RemoveLeaves(d, port);
    if d.Multiple? {
      RemovePortValid(d, port);
    }
    assert Mask(d') == 0 || Mask(d') == Mask(d);
    WithoutPortIs(l, id, port);
    hide Inv, RemovePort, WithoutPort, Mask, Valid, Leaves, UpdateEpoll;
    assert Logged(SetDescriptor(l, id, d'), []) == WithoutPort(l, id, port);
    UpdateSettles(l, id, d', [], accepted);
  }

  lemma NoMaskNoEntry(l: Loop, id: Id)
    requires Inv(l) && id in l.infos && Mask(l.infos[id].d) == 0
    ensures l.infos[id].fd !in l.epoll
  {
    assert l.infos[id].fd in l.epoll ==> MirrorAt(l, l.infos[id].fd);
  }

  /** A settled object whose mask is now empty is not registered. */
  lemma SettledIsGone(l: Loop, l': Loop, id: Id, d': Descriptor)
    requires Inv(l) && Settles(l, l', id, d', [], true) && Mask(d') == 0
    ensures l'.epoll == l.epoll - {l.infos[id].fd} && l'.infos - {id} == l.infos - {id}
  {
    hide Inv, Mask;
    if Mask(l.infos[id].d) == 0 {
      NoMaskNoEntry(l, id);
    }
    assert forall n :: n in l'.epoll <==> n in l'.epoll - {l.infos[id].fd};
  }

  lemma CloseEffect(l: Loop, id: Id, port: Port, closeSafe: bool, accepted: bool)
    requires Inv(l) && id in l.infos
    requires var d := l.infos[id].d;
             if d.Single? then d.port == ILLEGAL_PORT || d.port == port else closeSafe ==> Ports(d) <= {port}
    ensures Closes(l, HandleClose(l, id, port, closeSafe, accepted), id, port, closeSafe)
  {
    hide Inv, Mask, Valid, Leaves, UpdateEpoll, WithoutPort, Watches, Pays;
    var Info(fd, d) := l.infos[id];
    var d', l1 := RemovePort(d, port), WithoutPort(l, id, port);
    WithoutPortSettles(l, id, port, accepted);
    var l2 := UpdateEpoll(l1, Mask(d), id, accepted);
    if d.Single? || closeSafe {
      NobodyLeft(d, port);
      SettledIsGone(l, l2, id, d');
    } else {
      LogLast(l, l2, id, d', Destroyed(port));
    }
  }

  lemma NobodyLeft(d: Descriptor, port: Port)
    requires Valid(RemovePort(d, port)) && (d.Multiple? ==> Ports(d) <= {port})
    ensures Mask(RemovePort(d, port)) == 0
  {
    if d.Multiple? {
      assert Ports(RemovePort(d, port)) == {};
      EmptyHasNoMask(RemovePort(d, port));
    }
  }

  lemma LogLast(l: Loop, l': Loop, id: Id, d': Descriptor, r: Record)
    requires Settles(l, l', id, d', [], true)
    ensures Settles(l, Logged(l', [r]), id, d', [r], true)
  {
    hide Mask, Asks;
    assert l.log + [] == l.log;
  }

  lemma FindsObject(l: Loop, fd: int, listening: bool)
    requires Inv(l)
    ensures var (l1, id) := GetDescriptorInfo(l, fd, listening); Finds(l, l1, id, fd, listening)
  {
    GetKeepsInv(l, fd, listening);
    NewIsUnspent(listening);
    var (l1, id) := GetDescriptorInfo(l, fd, listening);
    hide NewDescriptor, DescriptorOk, PortBalance, MirrorAt;
    assert fd !in l.sockets ==> l.nextId !in l.infos;
  }

  /** The handler's choice among the commands. */
  lemma Dispatches(l: Loop, id: Id, m: Message)
    requires m.SocketMessage? && m.fd in l.sockets && l.sockets[m.fd] == id && id in l.infos && m.fd != -1
    ensures
      var l' := HandleMessage(l, m);
      match Decode(m.data)
      case Close => l' == HandleClose(l, id, m.port, m.closeSafe, m.accepted)
      case ReturnTokens(count) => l' == HandleReturn(l, id, m.port, count, m.accepted)
      case SetEventMask(events) => l' == HandleSetMask(l, id, m.port, events, m.accepted)
      case Unreachable => true
      case _ => l' == Check(l, l.infos[id].d.Single?, ListeningShutdown)
  {
    hide Decode, HandleClose, HandleReturn, HandleSetMask, IsListening, NewDescriptor;
  }

  lemma CommandIsObeyed(l: Loop, id: Id, m: Message)
    requires Inv(l) && m.SocketMessage? && m.fd in l.sockets && l.sockets[m.fd] == id && id in l.infos && m.fd != -1
    requires CommandLegal(l, id, m)
    ensures Obeys(l, HandleMessage(l, m), id, m)
  {
    hide Inv, Decode, HandleClose, HandleReturn, HandleSetMask, HandleMessage, Settles, Listens, Earns, Closes,
         Outstanding, Ports, UpdateEpoll;
    Dispatches(l, id, m);
    match Decode(m.data) {
      case Close => CloseEffect(l, id, m.port, m.closeSafe, m.accepted);
      case ReturnTokens(count) => ReturnEffect(l, id, m.port, count, m.accepted);
      case SetEventMask(events) =>
        NoOtherBits(events);
        SetMaskEffect(l, id, m.port, events, m.accepted);
      case _ =>
    }
  }

  lemma NoOtherBits(events: Events)
    ensures events == 0 || events == IN_EVENT ==> events & !(IN_EVENT | OUT_EVENT) == 0
  {
  }

  /** A message finds the object of its descriptor number, makes one if there is none, and its command is obeyed. */
  lemma MessageIsObeyed(l: Loop, m: Message)
    requires Inv(l) && m.SocketMessage? && MessageLegal(l, m)
    ensures
      if m.fd == -1 then HandleMessage(l, m) == l
      else exists l1, id :: Finds(l, l1, id, m.fd, IsListening(m.data)) && Obeys(l1, HandleMessage(l, m), id, m)
  {
    if m.fd != -1 {
      var (l1, id) := GetDescriptorInfo(l, m.fd, IsListening(m.data));
      assert HandleMessage(l, m) == HandleMessage(l1, m);
      hide Inv, HandleSocket, HandleMessage, Obeys, Finds, CommandLegal, IsListening;
      FindsObject(l, m.fd, IsListening(m.data));
      GetKeepsInv(l, m.fd, IsListening(m.data));
      CommandIsObeyed(l1, id, m);
    }
  }

  // ---------- the end of the run ----------

  /** The round brings the message to stop. */
  ghost predicate Stops(r: Round)
  {
    InterruptSeen(r.events) && ShutdownMessage in r.messages
  }

  lemma UpdateGoesOn(l: Loop, oldMask: Events, id: Id, accepted: bool)
    requires id in l.infos
    ensures UpdateEpoll(l, oldMask, id, accepted).shutdown == l.shutdown
  {
    hide Mask, NotifyAll, WantedEvents;
  }

  lemma CommandsGoOn(l: Loop, id: Id, m: Message)
    requires m.SocketMessage? && id in l.infos
    ensures HandleClose(l, id, m.port, m.closeSafe, m.accepted).shutdown == l.shutdown
    ensures forall count :: HandleReturn(l, id, m.port, count, m.accepted).shutdown == l.shutdown
    ensures forall events :: HandleSetMask(l, id, m.port, events, m.accepted).shutdown == l.shutdown
  {
    hide UpdateEpoll, RemovePort, ReturnTokensTo, SetPortAndMask, CheckMask, Ports, Mask;
    var mask := Mask(l.infos[id].d);
    UpdateGoesOn(WithoutPort(l, id, m.port), mask, id, m.accepted);
    forall count: nat
      ensures HandleReturn(l, id, m.port, count, m.accepted).shutdown == l.shutdown
    {
      UpdateGoesOn(WithTokens(l, id, m.port, count), mask, id, m.accepted);
    }
    forall events
      ensures HandleSetMask(l, id, m.port, events, m.accepted).shutdown == l.shutdown
    {
      UpdateGoesOn(WithMask(l, id, m.port, events), mask, id, m.accepted);
    }
  }

  lemma MessageStops(l: Loop, m: Message)
    ensures HandleMessage(l, m).shutdown <==> l.shutdown || m.ShutdownMessage?
  {
    hide Decode, HandleClose, HandleReturn, HandleSetMask, IsListening, NewDescriptor;
    if m.SocketMessage? {
      var (l1, id) := GetDescriptorInfo(l, m.fd, IsListening(m.data));
      if id in l1.infos {
        CommandsGoOn(l1, id, m);
      }
    }
  }

  lemma {:induction false} MessagesStop(l: Loop, ms: seq<Message>)
    ensures HandleMessages(l, ms).shutdown <==> l.shutdown || ShutdownMessage in ms
    decreases ms
  {
    hide HandleMessage;
    if ms != [] {
      MessageStops(l, ms[0]);
      MessagesStop(HandleMessage(l, ms[0]), ms[1..]);
    }
  }

  lemma IoGoesOn(l: Loop, id: Id, mask: Events, accepted: bool)
    requires id in l.infos
    ensures HandleIo(l, id, mask, accepted).shutdown == l.shutdown
  {
    hide UpdateEpoll, NextNotify, Mask;
    var d := l.infos[id].d;
    var (d', port) := NextNotify(d);
    var l1 := Check(Check(l, d.Single? || mask == IN_EVENT, ListeningReport), port != ILLEGAL_PORT, NoPort);
    UpdateGoesOn(SetDescriptor(l1, id, d'), Mask(d), id, accepted);
  }

  lemma EventGoesOn(l: Loop, e: Event, now: int)
    ensures HandleEvent(l, e, now).shutdown == l.shutdown
  {
    hide UpdateEpoll, HandleIo, NotifyAll, EventMask, Mask, Ports;
    if e.report.DescriptorReady? && e.report.di in l.infos {
      var id, mask := e.report.di, EventMask(e.report.events);
      UpdateGoesOn(NotifyAllPorts(l, id, mask), Mask(l.infos[id].d), id, e.accepted);
      IoGoesOn(l, id, mask, e.accepted);
    }
  }

  lemma {:induction false} ReportsGoOn(l: Loop, es: seq<Event>, now: int)
    ensures HandleReports(l, es, now).shutdown == l.shutdown
    decreases es
  {
    hide HandleEvent;
    if es != [] {
      EventGoesOn(l, es[0], now);
      ReportsGoOn(HandleEvent(l, es[0], now), es[1..], now);
    }
  }

  /** Rounds up to the first that stops, which is handled to its end. */
  ghost function UntilStop(rs: seq<Round>): (n: nat)
    ensures n <= |rs| && forall i :: 0 <= i < n - 1 ==> !Stops(rs[i])
    ensures n < |rs| ==> n > 0 && Stops(rs[n - 1])
  {
    if rs == [] then 0 else if Stops(rs[0]) then 1 else 1 + UntilStop(rs[1..])
  }

  ghost function AllRounds(l: Loop, rs: seq<Round>): (l': Loop)
    decreases rs
  {
    if rs == [] then l else AllRounds(HandleRound(l, rs[0]), rs[1..])
  }

  /** The loop handles every round up to the first that brings the message to stop, and no later one. */
  lemma {:induction false} RunEndsAtStop(l: Loop, rs: seq<Round>)
    requires !l.shutdown
    ensures Poll(l, rs) == AllRounds(l, rs[..UntilStop(rs)])
    decreases rs
  {
    if rs != [] {
      var l1 := HandleReports(l, rs[0].events, rs[0].now);
      ReportsGoOn(l, rs[0].events, rs[0].now);
      MessagesStop(l1, rs[0].messages);
      var n := UntilStop(rs);
      assert rs[..n][0] == rs[0] && rs[..n][1..] == rs[1..][..n - 1];
      hide HandleReports, HandleMessages;
      if Stops(rs[0]) {
        assert rs[1..][..0] == [];
      } else {
        RunEndsAtStop(HandleRound(l, rs[0]), rs[1..]);
      }
    }
  }
}
