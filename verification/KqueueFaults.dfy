/** Which events and which messages break an assertion of the kqueue loop: exactly these. */
module KqueueFaults {
  import opened Flags
  import opened DescriptorSpec
  import opened DescriptorEffects
  import opened KqueueLoop
  import opened KqueueProofs
  import opened KqueueEffects
  import K = Kqueue
  import E = EpollSpec
  import F = EpollFaults
  import C = EpollCommands

  /** The object is alive and has a port to tell, and a listening socket hears of new connections only. */
  ghost predicate EventFits(l: Loop, e: Report)
    requires e.Ready?
  {
    && e.id in l.objects
    && var d := l.objects[e.id].d;
       && (d.Multiple? ==> !e.write)
       && (!(e.eof && e.error) ==> HasTurn(d) && (d.Multiple? ==> !e.eof))
  }

  lemma AddIsSound(l: Loop, id: Id, accepted: bool)
    requires id in l.objects && Mask(l.objects[id].d) != 0
    ensures l.faults <= AddToKqueue(l, id, accepted).faults
    ensures !l.objects[id].tracked && K.Wanted(l.objects[id].d) ==> AddToKqueue(l, id, accepted).faults == l.faults
  {
    var mask := Mask(l.objects[id].d);
    if K.Wanted(l.objects[id].d) {
      K.MaskWanted(l.objects[id].d);
      K.SomeFilter(mask);
    }
    hide NotifyAll, Added, K.Wanted, Mask, K.FiltersOf;
  }

  lemma RemovedIsUntracked(l: Loop, id: Id)
    requires id in l.objects
    ensures
      var l' := RemoveFromKqueue(l, id);
      !l'.objects[id].tracked && l'.objects[id].d == l.objects[id].d && l'.faults == l.faults
  {
  }

  /** The registration step forgets no fault, and itself breaks no assertion. */
  lemma UpdateIsSound(l: Loop, oldMask: Events, id: Id, accepted: bool)
    requires id in l.objects && (l.objects[id].tracked ==> oldMask != 0)
    requires l.objects[id].d.Multiple? ==> oldMask == 0 || oldMask == IN_EVENT
    ensures l.faults <= Update(l, oldMask, id, accepted).faults
    ensures K.Wanted(l.objects[id].d) ==> Update(l, oldMask, id, accepted).faults == l.faults
  {
    var d := l.objects[id].d;
    assert d.Multiple? && Mask(d) != 0 ==> Mask(d) == IN_EVENT;
    hide AddToKqueue, RemoveFromKqueue, K.Wanted, Mask;
    var l0 := Check(l, d.Single?, ListeningMaskChange);
    RemovedIsUntracked(l, id);
    RemovedIsUntracked(l0, id);
    if Mask(d) != 0 {
      AddIsSound(l, id, accepted);
      AddIsSound(RemoveFromKqueue(l0, id), id, accepted);
    }
  }

  lemma OldMaskFits(l: Loop, id: Id)
    requires Inv(l) && id in l.objects
    ensures
      var d := l.objects[id].d;
      && K.Wanted(d) && Valid(d) && (l.objects[id].tracked ==> Mask(d) != 0)
      && (d.Multiple? ==> Mask(d) == 0 || Mask(d) == IN_EVENT)
  {
    assert InOrder(l, id);
    K.MaskWanted(l.objects[id].d);
  }

  lemma ServedWanted(d: Descriptor)
    requires K.Wanted(d)
    ensures K.Wanted(NotifyAll(d)) && K.Wanted(NextNotify(d).0)
  {
    K.NotifyAllWanted(d);
    if d.Multiple? && Mask(d) != 0 {
      NextNotifyValid(d);
    }
  }

  lemma EventMaskIs(listening: bool, write: bool, eof: bool, error: bool)
    requires !(eof && error)
    ensures GetEvents(listening, write, eof, error) == IN_EVENT <==> !write && !eof
  {
  }

  /** A change of one object after assertions that left `fs`. */
  lemma ChangeIsSound(l: Loop, fs: set<Fault>, id: Id, d': Descriptor, rs: seq<E.Record>, accepted: bool)
    requires Inv(l) && id in l.objects && d'.Single? == l.objects[id].d.Single?
    ensures
      var l1 := Logged(SetDescriptor(l.(faults := fs), id, d'), rs);
      var l' := Update(l1, Mask(l.objects[id].d), id, accepted);
      fs <= l'.faults && (K.Wanted(d') ==> l'.faults == fs)
  {
    OldMaskFits(l, id);
    hide Inv, Update, Mask, K.Wanted, Valid;
    UpdateIsSound(Logged(SetDescriptor(l.(faults := fs), id, d'), rs), Mask(l.objects[id].d), id, accepted);
  }

  lemma ErrorFaults(l: Loop, e: Report)
    requires Inv(l) && e.Ready? && e.id in l.objects && e.eof && e.error
    ensures HandleReady(l, e).faults == Check(l, l.objects[e.id].d.Single? || !e.write, ListeningWrite).faults
  {
    var d := l.objects[e.id].d;
    OldMaskFits(l, e.id);
    ServedWanted(d);
    F.TurnIsLegal(d);
    hide Inv, Update, NextNotify, NotifyAll, Mask, K.Wanted, Valid, GetEvents, HasTurn, Ports;
    var r := E.Broadcast(e.id, Ports(d), GetEvents(d.Multiple?, e.write, e.eof, e.error));
    var fs := Check(l, d.Single? || !e.write, ListeningWrite).faults;
    ChangeIsSound(l, fs, e.id, NotifyAll(d), [r], e.accepted);
  }

  lemma IoFaults(l: Loop, e: Report)
    requires Inv(l) && e.Ready? && e.id in l.objects && !(e.eof && e.error)
    ensures
      var d := l.objects[e.id].d;
      var l1 := Check(l, d.Single? || !e.write, ListeningWrite);
      var l2 := Check(l1, d.Single? || (!e.write && !e.eof), ListeningReport);
      HandleReady(l, e).faults == Check(l2, HasTurn(d), NoPort).faults
  {
    var d := l.objects[e.id].d;
    OldMaskFits(l, e.id);
    ServedWanted(d);
    F.TurnIsLegal(d);
    EventMaskIs(d.Multiple?, e.write, e.eof, e.error);
    hide Inv, Update, NextNotify, NotifyAll, Mask, K.Wanted, Valid, GetEvents, HasTurn, Ports;
    var mask := GetEvents(d.Multiple?, e.write, e.eof, e.error);
    var (d', port) := NextNotify(d);
    var l1 := Check(l, d.Single? || !e.write, ListeningWrite);
    var l2 := Check(Check(l1, d.Single? || mask == IN_EVENT, ListeningReport), port != ILLEGAL_PORT, NoPort);
    ChangeIsSound(l, l2.faults, e.id, d', [E.Notified(e.id, port, mask)], e.accepted);
  }

  /** An event breaks no assertion exactly when it fits. */
  lemma EventBreaksIff(l: Loop, e: Report)
    requires Inv(l) && l.faults == {} && e.Ready?
    ensures HandleReady(l, e).faults == {} <==> EventFits(l, e)
  {
    if e.id in l.objects {
      hide Inv, HasTurn;
      if e.eof && e.error {
        ErrorFaults(l, e);
      } else {
        IoFaults(l, e);
      }
    }
  }

  /** The assertions on the way of a close. */
  lemma CloseFaults(l: Loop, id: Id, port: Port, closeSafe: bool, accepted: bool)
    requires Inv(l) && id in l.objects
    ensures
      var d := l.objects[id].d;
      var d' := if port == ILLEGAL_PORT then d else RemovePort(d, port);
      var l1 := Check(l, d.Multiple? || port == ILLEGAL_PORT || d.port == ILLEGAL_PORT || d.port == port, WrongPort);
      HandleClose(l, id, port, closeSafe, accepted).faults ==
      Check(l1, d.Single? || closeSafe ==> Mask(d') == 0, MaskOnClose).faults
  {
    var d, l1 := l.objects[id].d, WithoutPort(l, id, port);
    OldMaskFits(l, id);
    F.RemoveKeepsKind(d, port);
    RemovedWanted(d, port);
    hide Inv, Update, Mask, RemovePort, Valid, K.Wanted;
    UpdateIsSound(l1, Mask(d), id, accepted);
  }

  lemma CloseBreaksIff(l: Loop, id: Id, m: E.Message)
    requires Inv(l) && id in l.objects && m.SocketMessage? && Decode(m.data).Close?
    ensures
      var l' := HandleClose(l, id, m.port, m.closeSafe, m.accepted);
      l'.faults == l.faults <==> F.CommandFits(l.objects[id].d, m)
  {
    var d := l.objects[id].d;
    OldMaskFits(l, id);
    Unbroken(l);
    hide Inv, HandleClose, Decode, Mask, RemovePort, CanBeTold, Valid, K.Wanted;
    CloseFaults(l, id, m.port, m.closeSafe, m.accepted);
    if d.Single? && m.port != ILLEGAL_PORT ==> d.port == ILLEGAL_PORT || d.port == m.port {
      F.RemainingIff(d, m.port);
    }
  }

  lemma Unbroken(l: Loop)
    requires Inv(l)
    ensures l.faults <= {ListeningReport}
  {
  }

  lemma RemovedWanted(d: Descriptor, port: Port)
    requires K.Wanted(d)
    ensures K.Wanted(RemovePort(d, port))
  {
    K.CommandWanted(d, K.Remove(port));
  }

  lemma ReturnFaults(l: Loop, id: Id, port: Port, count: nat, accepted: bool)
    requires Inv(l) && id in l.objects
    ensures
      var d := l.objects[id].d;
      var l1 := Check(Check(l, d.Single? || port in d.ports, UnknownPort), d.Multiple? || d.port == port, WrongPort);
      HandleReturn(l, id, port, count, accepted).faults ==
      Check(l1, NotOverfull(ReturnTokensTo(d, port, count), port), TooManyTokens).faults
  {
    var d := l.objects[id].d;
    OldMaskFits(l, id);
    K.CommandWanted(d, K.Return(port, count));
    hide Inv, Update, Mask, Valid, K.Wanted, NotOverfull, ReturnTokensTo;
    var d' := ReturnTokensTo(d, port, count);
    var l1 := Check(Check(l, d.Single? || port in d.ports, UnknownPort), d.Multiple? || d.port == port, WrongPort);
    ChangeIsSound(l, Check(l1, NotOverfull(d', port), TooManyTokens).faults, id, d', [E.Returned(id, port, count)],
                  accepted);
  }

  lemma ReturnBreaksIff(l: Loop, id: Id, m: E.Message)
    requires Inv(l) && id in l.objects && m.SocketMessage? && Decode(m.data).ReturnTokens?
    ensures
      var l' := HandleReturn(l, id, m.port, Decode(m.data).count, m.accepted);
      l'.faults == l.faults <==> F.CommandFits(l.objects[id].d, m)
  {
    Unbroken(l);
    hide Inv, HandleReturn, Decode;
    ReturnFaults(l, id, m.port, Decode(m.data).count, m.accepted);
  }

  /** The assertions on the way of a new mask. */
  lemma MaskChecks(l: Loop, d: Descriptor, port: Port, events: Events)
    requires l.faults <= {ListeningReport}
    ensures
      var l1 := Check(l, events & !(IN_EVENT | OUT_EVENT) == 0, BadEventMask);
      var l2 := Check(l1, d.Multiple? || d.port == ILLEGAL_PORT || d.port == port, WrongPort);
      var l3 := Check(l2, d.Single? || events == 0 || events == IN_EVENT, ListeningMask);
      l.faults <= l3.faults && (l3.faults == l.faults <==> F.MaskFits(d, port, events))
  {
    C.NoOtherBits(events);
  }

  lemma SetWanted(d: Descriptor, port: Port, events: Events)
    requires K.Wanted(d) && F.MaskFits(d, port, events) && port != ILLEGAL_PORT
    ensures K.Wanted(SetPortAndMask(d, port, events))
  {
    C.NoOtherBits(events);
    EventsFit(events);
    K.CommandWanted(d, K.SetMask(port, events));
  }

  lemma SetMaskFaults(l: Loop, id: Id, port: Port, events: Events, accepted: bool)
    requires Inv(l) && id in l.objects && port != ILLEGAL_PORT
    ensures HandleSetMask(l, id, port, events, accepted).faults == l.faults <==>
            F.MaskFits(l.objects[id].d, port, events)
  {
    var d := l.objects[id].d;
    OldMaskFits(l, id);
    Unbroken(l);
    hide Inv, Update, Mask, Valid, K.Wanted, Ports, SetPortAndMask, F.MaskFits;
    MaskChecks(l, d, port, events);
    C.SetKeepsKind(d, port, events);
    if F.MaskFits(d, port, events) {
      SetWanted(d, port, events);
    }
    var l1 := Check(l, events & !(IN_EVENT | OUT_EVENT) == 0, BadEventMask);
    var l2 := Check(l1, d.Multiple? || d.port == ILLEGAL_PORT || d.port == port, WrongPort);
    var l3 := Check(l2, d.Single? || events == 0 || events == IN_EVENT, ListeningMask);
    var rs := if port in Ports(d) then [] else [E.Attached(id, port)];
    hide Check;
    ChangeIsSound(l, l3.faults, id, SetPortAndMask(d, port, events), rs, accepted);
  }

  lemma SetMaskBreaksIff(l: Loop, id: Id, m: E.Message)
    requires Inv(l) && id in l.objects && m.SocketMessage? && Decode(m.data).SetEventMask? && m.port != ILLEGAL_PORT
    ensures
      var l' := HandleSetMask(l, id, m.port, Decode(m.data).events, m.accepted);
      l'.faults == l.faults <==> F.CommandFits(l.objects[id].d, m)
  {
    hide Inv, HandleSetMask, Decode;
    SetMaskFaults(l, id, m.port, Decode(m.data).events, m.accepted);
  }

  lemma CommandBreaksIff(l: Loop, id: Id, m: E.Message)
    requires Inv(l) && id in l.objects && m.SocketMessage? && (Decode(m.data).SetEventMask? ==> m.port != ILLEGAL_PORT)
    ensures HandleCommand(l, id, m).faults == l.faults <==> F.CommandFits(l.objects[id].d, m)
  {
    Unbroken(l);
    hide Inv, Decode, HandleClose, HandleReturn, HandleSetMask, CanBeTold, Ports, Tokens;
    match Decode(m.data) {
      case Close => CloseBreaksIff(l, id, m);
      case ReturnTokens(_) => ReturnBreaksIff(l, id, m);
      case SetEventMask(_) => SetMaskBreaksIff(l, id, m);
      case _ =>
    }
  }

  /** A message breaks no assertion exactly when the object of its descriptor number can carry out its command. */
  lemma MessageBreaksIff(l: Loop, m: E.Message)
    requires Inv(l) && m.SocketMessage? && m.fd != -1 && (Decode(m.data).SetEventMask? ==> m.port != ILLEGAL_PORT)
    ensures
      var (l1, id) := GetDescriptorInfo(l, m.fd, IsListening(m.data));
      id in l1.objects && (HandleMessage(l, m).faults == l.faults <==> F.CommandFits(l1.objects[id].d, m))
  {
    hide Inv, HandleCommand, F.CommandFits, GetDescriptorInfo, IsListening, Decode;
    GetKeepsInv(l, m.fd, IsListening(m.data));
    var (l1, id) := GetDescriptorInfo(l, m.fd, IsListening(m.data));
    CommandBreaksIff(l1, id, m);
  }
}
