/** Which reports and which messages break an assertion of the Linux loop: exactly these. */
module EpollFaults {
  import opened Flags
  import opened DescriptorSpec
  import opened DescriptorEffects
  import opened EpollSpec
  import opened EpollProofs
  import opened EpollEffects
  import opened EpollCommands

  /** The object is alive and has a port to tell, and a listening socket hears of new connections only. */
  ghost predicate ReportFits(l: Loop, id: Id, events: bv32)
  {
    && id in l.infos
    && (Counts(events) && events & EPOLLERR == 0 ==>
          var d := l.infos[id].d;
          HasTurn(d) && (d.Multiple? ==> events & (EPOLLOUT | EPOLLHUP | EPOLLRDHUP) == 0))
  }

  /** Whether the events fit the kind of the descriptor. */
  ghost predicate MaskFits(d: Descriptor, port: Port, events: Events)
  {
    if d.Single? then events & !(IN_EVENT | OUT_EVENT) == 0 && (d.port == ILLEGAL_PORT || d.port == port)
    else events == 0 || events == IN_EVENT
  }

  /** The object found for a message can carry out its command. */
  ghost predicate CommandFits(d: Descriptor, m: Message)
    requires m.SocketMessage?
  {
    match Decode(m.data)
    case ShutdownRead => d.Single?
    case ShutdownWrite => d.Single?
    case Close =>
      && (d.Single? && m.port != ILLEGAL_PORT ==> d.port == ILLEGAL_PORT || d.port == m.port)
      && (d.Single? || m.closeSafe ==> forall p :: CanBeTold(d, p) ==> p == m.port)
    case ReturnTokens(count) =>
      if d.Single? then d.port == m.port && d.tokens + count <= SINGLE_TOKENS
      else m.port in Ports(d) && Tokens(d, m.port) + count <= LISTENER_TOKENS
    case SetEventMask(events) => MaskFits(d, m.port, events)
    case Unreachable => false
  }

  /** The registration step itself breaks no assertion. */
  lemma UpdateIsSound(l: Loop, oldMask: Events, id: Id, accepted: bool)
    requires id in l.infos && (l.infos[id].fd in l.epoll ==> oldMask != 0)
    requires l.infos[id].d.Multiple? ==> oldMask == 0 || oldMask == IN_EVENT
    ensures UpdateEpoll(l, oldMask, id, accepted).faults == l.faults
  {
    hide NotifyAll, WantedEvents;
  }

  lemma OldMaskFits(l: Loop, id: Id)
    requires Inv(l) && id in l.infos
    ensures
      var Info(fd, d) := l.infos[id];
      Valid(d) && (fd in l.epoll ==> Mask(d) != 0) && (d.Multiple? ==> Mask(d) == 0 || Mask(d) == IN_EVENT)
  {
    assert DescriptorOk(l.infos[id].d);
    assert l.infos[id].fd in l.epoll ==> MirrorAt(l, l.infos[id].fd);
  }

  lemma TurnIsLegal(d: Descriptor)
    requires Valid(d)
    ensures NextNotify(d).1 != ILLEGAL_PORT <==> HasTurn(d)
    ensures NextNotify(d).0.Single? == d.Single? && NotifyAll(d).Single? == d.Single?
  {
    if d.Multiple? && d.active != [] {
      assert d.active[0] in d.active;
    }
  }

  lemma IoBreaksIff(l: Loop, id: Id, mask: Events, accepted: bool)
    requires Inv(l) && id in l.infos
    ensures
      var d := l.infos[id].d;
      HandleIo(l, id, mask, accepted).faults == {} <==> HasTurn(d) && (d.Multiple? ==> mask == IN_EVENT)
  {
    assert l.faults == {};
    OldMaskFits(l, id);
    hide Inv, UpdateEpoll, NextNotify, Mask, Valid;
    var d := l.infos[id].d;
    TurnIsLegal(d);
    var (d', port) := NextNotify(d);
    var l1 := Check(Check(l, d.Single? || mask == IN_EVENT, ListeningReport), port != ILLEGAL_PORT, NoPort);
    UpdateIsSound(SetDescriptor(l1, id, d'), Mask(d), id, accepted);
  }

  lemma OnlyIn(events: bv32)
    requires Counts(events) && events & EPOLLERR == 0
    ensures EventMask(events) == IN_EVENT <==> events & (EPOLLOUT | EPOLLHUP | EPOLLRDHUP) == 0
  {
  }

  /** A report breaks no assertion exactly when it fits. */
  lemma ReportBreaksIff(l: Loop, id: Id, events: bv32, accepted: bool)
    requires Inv(l)
    ensures HandleReady(l, id, events, accepted).faults == {} <==> ReportFits(l, id, events)
  {
    assert l.faults == {};
    CountsIsMask(events);
    if id in l.infos {
      OldMaskFits(l, id);
      hide Inv, EventMask, UpdateEpoll, HandleIo, Mask, HasTurn, NotifyAll, Spells;
      if Counts(events) {
        if events & EPOLLERR != 0 {
          TurnIsLegal(l.infos[id].d);
          UpdateIsSound(NotifyAllPorts(l, id, EventMask(events)), Mask(l.infos[id].d), id, accepted);
        } else {
          OnlyIn(events);
          IoBreaksIff(l, id, EventMask(events), accepted);
        }
      }
    }
  }

  /** Who is left once the port is gone. */
  lemma RemainingIff(d: Descriptor, port: Port)
    requires Valid(d) && (d.Single? && port != ILLEGAL_PORT ==> d.port == ILLEGAL_PORT || d.port == port)
    ensures
      var d' := if port == ILLEGAL_PORT then d else RemovePort(d, port);
      d'.Single? == d.Single? && (Mask(d') == 0 <==> forall p :: CanBeTold(d, p) ==> p == port)
  {
    MaskIsWishes(d);
    if port != ILLEGAL_PORT && d.Multiple? {
      RemovePortValid(d, port);
      MaskIsWishes(RemovePort(d, port));
      assert forall p :: CanBeTold(RemovePort(d, port), p) <==> CanBeTold(d, p) && p != port;
    }
  }

  lemma RemoveKeepsKind(d: Descriptor, port: Port)
    ensures RemovePort(d, port).Single? == d.Single?
  {
  }

  /** The assertions on the way of a close. */
  lemma CloseFaults(l: Loop, id: Id, port: Port, closeSafe: bool, accepted: bool)
    requires Inv(l) && id in l.infos
    ensures
      var d := l.infos[id].d;
      var d' := if port == ILLEGAL_PORT then d else RemovePort(d, port);
      HandleClose(l, id, port, closeSafe, accepted).faults == {} <==>
      && (d.Single? && port != ILLEGAL_PORT ==> d.port == ILLEGAL_PORT || d.port == port)
      && (d.Single? || closeSafe ==> Mask(d') == 0)
  {
    assert l.faults == {};
    OldMaskFits(l, id);
    hide Inv, UpdateEpoll, Mask, RemovePort, Valid;
    var d := l.infos[id].d;
    RemoveKeepsKind(d, port);
    UpdateIsSound(WithoutPort(l, id, port), Mask(d), id, accepted);
  }

  lemma CloseBreaksIff(l: Loop, id: Id, m: Message)
    requires Inv(l) && id in l.infos && m.SocketMessage? && Decode(m.data).Close?
    ensures HandleClose(l, id, m.port, m.closeSafe, m.accepted).faults == {} <==> CommandFits(l.infos[id].d, m)
  {
    OldMaskFits(l, id);
    hide Inv, HandleClose, Decode, Mask, RemovePort, CanBeTold, Valid;
    var d := l.infos[id].d;
    CloseFaults(l, id, m.port, m.closeSafe, m.accepted);
    if d.Single? && m.port != ILLEGAL_PORT ==> d.port == ILLEGAL_PORT || d.port == m.port {
      RemainingIff(d, m.port);
    }
  }

  lemma ReturnBreaksIff(l: Loop, id: Id, m: Message)
    requires Inv(l) && id in l.infos && m.SocketMessage? && Decode(m.data).ReturnTokens?
    ensures
      HandleReturn(l, id, m.port, Decode(m.data).count, m.accepted).faults == {} <==> CommandFits(l.infos[id].d, m)
  {
    assert l.faults == {};
    OldMaskFits(l, id);
    hide Inv, UpdateEpoll, Mask, Valid, Decode;
    var d, count := l.infos[id].d, Decode(m.data).count;
    UpdateIsSound(WithTokens(l, id, m.port, count), Mask(d), id, m.accepted);
  }

  lemma CheckMaskIff(l: Loop, d: Descriptor, port: Port, events: Events)
    requires l.faults == {}
    ensures CheckMask(l, d, port, events).faults == {} <==> MaskFits(d, port, events)
  {
    NoOtherBits(events);
  }

  lemma SetMaskFaults(l: Loop, id: Id, port: Port, events: Events, accepted: bool)
    requires Inv(l) && id in l.infos
    ensures HandleSetMask(l, id, port, events, accepted).faults == {} <==> MaskFits(l.infos[id].d, port, events)
  {
    assert l.faults == {};
    OldMaskFits(l, id);
    hide Inv, UpdateEpoll, Mask, Valid, CheckMask, Ports, SetPortAndMask, MaskFits;
    var d := l.infos[id].d;
    SetKeepsKind(d, port, events);
    CheckMaskIff(l, d, port, events);
    UpdateIsSound(WithMask(l, id, port, events), Mask(d), id, accepted);
  }

  lemma SetMaskBreaksIff(l: Loop, id: Id, m: Message)
    requires Inv(l) && id in l.infos && m.SocketMessage? && Decode(m.data).SetEventMask?
    ensures
      HandleSetMask(l, id, m.port, Decode(m.data).events, m.accepted).faults == {} <==> CommandFits(l.infos[id].d, m)
  {
    hide Inv, HandleSetMask, Decode;
    SetMaskFaults(l, id, m.port, Decode(m.data).events, m.accepted);
  }

  lemma CommandBreaksIff(l: Loop, id: Id, m: Message)
    requires Inv(l) && m.SocketMessage? && m.fd in l.sockets && l.sockets[m.fd] == id && id in l.infos && m.fd != -1
    ensures HandleMessage(l, m).faults == {} <==> CommandFits(l.infos[id].d, m)
  {
    assert l.faults == {};
    hide Inv, Decode, HandleClose, HandleReturn, HandleSetMask, IsListening, CanBeTold, Ports, Tokens;
    match Decode(m.data) {
      case Close => CloseBreaksIff(l, id, m);
      case ReturnTokens(_) => ReturnBreaksIff(l, id, m);
      case SetEventMask(_) => SetMaskBreaksIff(l, id, m);
      case _ =>
    }
  }

  /** A message breaks no assertion exactly when the object of its descriptor number can carry out its command. */
  lemma MessageBreaksIff(l: Loop, m: Message)
    requires Inv(l) && m.SocketMessage? && m.fd != -1
    ensures
      var (l1, id) := GetDescriptorInfo(l, m.fd, IsListening(m.data));
      id in l1.infos && (HandleMessage(l, m).faults == {} <==> CommandFits(l1.infos[id].d, m))
  {
    var (l1, id) := GetDescriptorInfo(l, m.fd, IsListening(m.data));
    assert HandleMessage(l, m) == HandleMessage(l1, m);
    GetKeepsInv(l, m.fd, IsListening(m.data));
    hide Inv, HandleSocket, HandleMessage, CommandFits;
    CommandBreaksIff(l1, id, m);
  }
}
