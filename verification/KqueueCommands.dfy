/** What the interrupt messages of the kqueue loop do: to the ports, to the kernel's registrations and to the run. */
module KqueueCommands {
  import opened Flags
  import opened DescriptorSpec
  import opened DescriptorEffects
  import opened KqueueLoop
  import opened KqueueProofs
  import K = Kqueue
  import E = EpollSpec
  import P = EpollProofs

  // ---------- the registrations after a change ----------

  /** The kernel holds a read filter for `id` exactly when `mask` has the in direction, a write filter for out. */
  ghost predicate Watches(l: Loop, id: Id, mask: Events)
    requires id in l.objects
  {
    var read, write := Key(l.objects[id].fd, false), Key(l.objects[id].fd, true);
    && (read in l.kernel <==> mask & IN_EVENT != 0) && (read in l.kernel ==> l.kernel[read] == id)
    && (write in l.kernel <==> mask & OUT_EVENT != 0) && (write in l.kernel ==> l.kernel[write] == id)
  }

  /**
   * Object `id` has become `d'`, with the records `rs`. The kernel watches the new mask if it differs from the old
   * one; or it has refused, and all ports were told of a close.
   */
  ghost predicate Settles(l: Loop, l': Loop, id: Id, d': Descriptor, rs: seq<E.Record>, accepted: bool)
  {
    && OnlyChanged(l, l', id) && l'.faults == l.faults
    && var mask := Mask(l.objects[id].d);
       if Mask(d') == mask then
         l'.objects[id].d == d' && l'.log == l.log + rs && l'.kernel == l.kernel
       else if accepted || Mask(d') == 0 then
         l'.objects[id].d == d' && l'.log == l.log + rs && Watches(l', id, Mask(d'))
       else
         && Pays(d', l'.objects[id].d, Ports(d')) && Watches(l', id, 0)
         && l'.log == l.log + rs + [E.Broadcast(id, Ports(d'), CLOSE_EVENT)]
  }

  /** What the registration step does to one descriptor whose mask has changed. */
  lemma WatchSettles(w: K.Watch, d': Descriptor, accepted: bool)
    requires K.Inv(w) && K.Wanted(d') && d'.Single? == w.d.Single? && Mask(d') != Mask(w.d)
    ensures
      var r := K.Update(w.(d := d'), Mask(w.d), accepted);
      && r.sound
      && if accepted || Mask(d') == 0 then r.d == d' && r.kernel == K.FiltersOf(Mask(d'))
         else r.d == NotifyAll(d') && r.kernel == K.NO_FILTERS
  {
    K.MaskWanted(w.d);
    K.MaskWanted(d');
    K.UpdateKeepsInv(w.(d := d'), Mask(w.d), accepted);
  }

  lemma WatchesFilters(l: Loop, id: Id, mask: Events)
    requires id in l.objects && Linked(l) && Carried(l) && WatchOf(l, id).kernel == K.FiltersOf(mask)
    ensures Watches(l, id, mask)
  {
    assert ObjectOk(l, id);
  }

  /** Nothing but the descriptor changes before the registration step. */
  lemma StepLogs(l: Loop, id: Id, oldMask: Events, accepted: bool)
    requires id in l.objects
    ensures
      var l', d := Update(l, oldMask, id, accepted), l.objects[id].d;
      if Mask(d) != oldMask && Mask(d) != 0 && !accepted then
        l'.log == l.log + [E.Broadcast(id, Ports(d), CLOSE_EVENT)]
      else l'.log == l.log
  {
    hide NotifyAll, Added, Mask, K.FiltersOf;
  }

  lemma NoNewFaults(l: Loop, l': Loop, id: Id)
    requires id in l.objects && id in l'.objects && Sane(l) && WatchOf(l', id).sound && Recorded(l, l', id)
    ensures l'.faults == l.faults
  {
    hide NotifyAll, Mask;
  }

  lemma ChangedMaskSettles(l: Loop, id: Id, d': Descriptor, rs: seq<E.Record>, accepted: bool)
    requires Inv(l) && id in l.objects && K.Wanted(d') && d'.Single? == l.objects[id].d.Single?
    requires Mask(d') != Mask(l.objects[id].d)
    ensures
      var l1 := Logged(SetDescriptor(l, id, d'), rs);
      Settles(l, Update(l1, Mask(l.objects[id].d), id, accepted), id, d', rs, accepted)
  {
    hide Inv, K.Inv, K.Wanted, Update, K.Update, Mask, NotifyAll, Linked, Carried, OnlyChanged, Watches, Pays,
         K.FiltersOf;
    var mask, l1 := Mask(l.objects[id].d), Logged(SetDescriptor(l, id, d'), rs);
    var l' := Update(l1, mask, id, accepted);
    InvOf(l, id);
    WatchSettles(WatchOf(l, id), d', accepted);
    ChangedOnly(l, id, d', rs);
    UpdateSimulates(l1, mask, id, accepted);
    OnlyChangedTwice(l, l1, l', id);
    StepLogs(l1, id, mask, accepted);
    UpdateRecords(l1, mask, id, accepted);
    NoNewFaults(l1, l', id);
    if accepted || Mask(d') == 0 {
      WatchesFilters(l', id, Mask(d'));
    } else {
      NoFilters();
      WatchesFilters(l', id, 0);
      BroadcastPays(d');
    }
  }

  lemma NoFilters()
    ensures K.FiltersOf(0) == K.NO_FILTERS
  {
  }

  /** The registration step after any change of one object. */
  lemma UpdateSettles(l: Loop, id: Id, d': Descriptor, rs: seq<E.Record>, accepted: bool)
    requires Inv(l) && id in l.objects && K.Wanted(d') && d'.Single? == l.objects[id].d.Single?
    ensures
      var l1 := Logged(SetDescriptor(l, id, d'), rs);
      Settles(l, Update(l1, Mask(l.objects[id].d), id, accepted), id, d', rs, accepted)
  {
    hide Inv, Mask, AddToKqueue, RemoveFromKqueue, Watches, Pays;
    if Mask(d') != Mask(l.objects[id].d) {
      hide Settles;
      ChangedMaskSettles(l, id, d', rs, accepted);
    }
  }

  // ---------- one message ----------

  /** `l1` has object `id` for descriptor number `fd`: the one there was, or a new one without ports. */
  ghost predicate Finds(l: Loop, l1: Loop, id: Id, fd: int, listening: bool)
  {
    && id in l1.objects
    && if fd in l.sockets then l1 == l && id == l.sockets[fd]
       else
         && id !in l.objects && l1.objects[id].fd == fd && (l1.objects[id].d.Multiple? <==> listening)
         && Ports(l1.objects[id].d) == {} && Unspent(l1.objects[id].d)
         && l1 == l.(objects := l.objects[id := l1.objects[id]], sockets := l.sockets[fd := id], nextId := l1.nextId)
  }

  /** The last listener of a number takes the object with it; another one only leaves. */
  ghost predicate Closes(l: Loop, l': Loop, id: Id, port: Port, closeSafe: bool)
    requires id in l.objects
  {
    var d, fd := l.objects[id].d, l.objects[id].fd;
    if d.Single? || closeSafe then
      l' == l.(objects := l.objects - {id}, sockets := l.sockets - {fd},
               kernel := l.kernel - {Key(fd, false), Key(fd, true)}, log := l.log + [E.Destroyed(port)])
    else exists d' :: Leaves(d, d', port) && Settles(l, l', id, d', [E.Destroyed(port)], true)
  }

  /** The command of message `m` has been carried out on object `id`. */
  ghost predicate Obeys(l: Loop, l': Loop, id: Id, m: E.Message)
    requires id in l.objects && m.SocketMessage?
  {
    var d := l.objects[id].d;
    match Decode(m.data)
    case ShutdownRead => l' == l
    case ShutdownWrite => l' == l
    case Close => Closes(l, l', id, m.port, m.closeSafe)
    case ReturnTokens(count) =>
      exists d' ::
        Earns(d, d', m.port, count) && Settles(l, l', id, d', [E.Returned(id, m.port, count)], m.accepted)
    case SetEventMask(events) =>
      exists d' ::
        && Listens(d, d', m.port, events)
        && Settles(l, l', id, d', if m.port in Ports(d) then [] else [E.Attached(id, m.port)], m.accepted)
    case Unreachable => true
  }

  lemma InOrderIsUnspent(l: Loop, id: Id)
    requires Inv(l) && id in l.objects
    ensures K.Wanted(l.objects[id].d) && Unspent(l.objects[id].d)
  {
    assert InOrder(l, id);
  }

  /** The port listens for the events, with its tokens, and the kernel watches the new mask. */
  lemma SetMaskEffect(l: Loop, id: Id, port: Port, events: Events, accepted: bool)
    requires Inv(l) && id in l.objects && port != ILLEGAL_PORT && events & !(IN_EVENT | OUT_EVENT) == 0
    requires var d := l.objects[id].d;
             if d.Single? then d.port == ILLEGAL_PORT || d.port == port else events == 0 || events == IN_EVENT
    ensures
      var d, l' := l.objects[id].d, HandleSetMask(l, id, port, events, accepted);
      exists d' ::
        && Listens(d, d', port, events)
        && Settles(l, l', id, d', if port in Ports(d) then [] else [E.Attached(id, port)], accepted)
  {
    InOrderIsUnspent(l, id);
    var d := l.objects[id].d;
    var d' := K.Commanded(d, K.SetMask(port, events));
    SetMaskListens(d, port, events);
    EventsFit(events);
    K.CommandWanted(d, K.SetMask(port, events));
    var rs := if port in Ports(d) then [] else [E.Attached(id, port)];
    hide Inv, Update, SetPortAndMask, Settles, Listens, Mask, K.Wanted;
    UpdateSettles(l, id, d', rs, accepted);
  }

  /**
   * While a connected socket has tokens, the kernel watches exactly the events it was last told to listen for; only
   * a registration that the kernel refused earlier is not repeated for the same events.
   */
  lemma ConnectedIsWatched(l: Loop, id: Id, port: Port, events: Events)
    requires Inv(l) && id in l.objects && port != ILLEGAL_PORT && events & !(IN_EVENT | OUT_EVENT) == 0
    requires var d := l.objects[id].d; d.Single? && d.tokens > 0 && (d.port == ILLEGAL_PORT || d.port == port)
    requires !l.objects[id].refused || events != Mask(l.objects[id].d)
    ensures
      var l' := HandleSetMask(l, id, port, events, true);
      id in l'.objects && Mask(l'.objects[id].d) == events && Watches(l', id, events)
  {
    var d := l.objects[id].d;
    SetMaskEffect(l, id, port, events, true);
    if events == Mask(d) {
      MatchedIsWatched(l, id);
    }
    hide Inv, HandleSetMask, Pays, OthersAsBefore, TurnsAsBefore, SameElsewhere;
  }

  lemma MatchedIsWatched(l: Loop, id: Id)
    requires Inv(l) && id in l.objects && !l.objects[id].refused
    ensures Watches(l, id, Mask(l.objects[id].d))
  {
    assert InOrder(l, id);
    NoFilters();
    WatchesFilters(l, id, Mask(l.objects[id].d));
  }

  /** The port has its tokens back, and the kernel watches again what it can be told. */
  lemma ReturnEffect(l: Loop, id: Id, port: Port, count: nat, accepted: bool)
    requires Inv(l) && id in l.objects && port in Ports(l.objects[id].d) && count <= P.Outstanding(l.log, id, port)
    ensures
      var l' := HandleReturn(l, id, port, count, accepted);
      exists d' ::
        Earns(l.objects[id].d, d', port, count) && Settles(l, l', id, d', [E.Returned(id, port, count)], accepted)
  {
    assert InOrder(l, id);
    var d, c := l.objects[id].d, K.Return(port, count);
    ReturnEarns(d, port, count);
    K.CommandWanted(d, c);
    hide Inv, Update, ReturnTokensTo, Settles, Earns, Mask, K.Wanted, P.Outstanding, Balanced, Allowance;
    ReturnBalance(l.log, id, d, port, count);
    ReturnIs(l, id, port, count, accepted);
    UpdateSettles(l, id, K.Commanded(d, c), [E.Returned(id, port, count)], accepted);
  }

  /** Without the port the mask is empty or as before, so nothing is registered. */
  lemma WithoutPortSettles(l: Loop, id: Id, port: Port, accepted: bool)
    requires Inv(l) && id in l.objects
    requires var d := l.objects[id].d; d.Single? ==> d.port == ILLEGAL_PORT || d.port == port
    ensures
      var d := l.objects[id].d;
      var d', l1 := RemovePort(d, port), WithoutPort(l, id, port);
      && Leaves(d, d', port) && Valid(d') && (Mask(d') == 0 || Mask(d') == Mask(d))
      && l1.objects[id].d == d' && Settles(l, Update(l1, Mask(d), id, accepted), id, d', [], true)
  {
    InOrderIsUnspent(l, id);
    var d := l.objects[id].d;
    var d' := K.Commanded(d, K.Remove(port));
    RemoveLeaves(d, port);
    K.CommandWanted(d, K.Remove(port));
    assert Mask(d') == 0 || Mask(d') == Mask(d);
    WithoutPortIs(l, id, port);
    hide Inv, RemovePort, WithoutPort, Mask, Leaves, Update;
    Unlogged(l, id, d');
    assert SetDescriptor(l, id, d') == WithoutPort(l, id, port);
    UpdateSettles(l, id, d', [], accepted);
  }

  lemma NoMaskNoKeys(l: Loop, id: Id)
    requires Inv(l) && id in l.objects && Mask(l.objects[id].d) == 0
    ensures Key(l.objects[id].fd, false) !in l.kernel && Key(l.objects[id].fd, true) !in l.kernel
  {
    assert InOrder(l, id);
  }

  /** A settled object whose mask is now empty is not registered. */
  lemma SettledIsGone(l: Loop, l': Loop, id: Id, d': Descriptor)
    requires Inv(l) && Settles(l, l', id, d', [], true) && Mask(d') == 0
    ensures
      var fd := l.objects[id].fd;
      l'.kernel == l.kernel - {Key(fd, false), Key(fd, true)} && l'.objects - {id} == l.objects - {id}
  {
    hide Inv, Mask;
    if Mask(l.objects[id].d) == 0 {
      NoMaskNoKeys(l, id);
    }
  }

  lemma CloseEffect(l: Loop, id: Id, port: Port, closeSafe: bool, accepted: bool)
    requires Inv(l) && id in l.objects
    requires var d := l.objects[id].d;
             if d.Single? then d.port == ILLEGAL_PORT || d.port == port else closeSafe ==> Ports(d) <= {port}
    ensures Closes(l, HandleClose(l, id, port, closeSafe, accepted), id, port, closeSafe)
  {
    hide Inv, Mask, Valid, Leaves, Update, WithoutPort, Watches, Pays, SameElsewhere;
    var d := l.objects[id].d;
    var d', l1 := RemovePort(d, port), WithoutPort(l, id, port);
    WithoutPortSettles(l, id, port, accepted);
    var l2 := Update(l1, Mask(d), id, accepted);
    if d.Single? || closeSafe {
      NobodyLeft(d, port);
      SettledIsGone(l, l2, id, d');
    } else {
      LogLast(l, l2, id, d', E.Destroyed(port));
    }
  }

  lemma NobodyLeft(d: Descriptor, port: Port)
    requires Valid(RemovePort(d, port)) && (d.Multiple? ==> Ports(d) <= {port})
    ensures Mask(RemovePort(d, port)) == 0
  {
    if d.Multiple? {
      assert Ports(RemovePort(d, port)) == {};
      P.EmptyHasNoMask(RemovePort(d, port));
    }
  }

  lemma LogLast(l: Loop, l': Loop, id: Id, d': Descriptor, r: E.Record)
    requires Settles(l, l', id, d', [], true)
    ensures Settles(l, Logged(l', [r]), id, d', [r], true)
  {
    hide Mask;
    assert l.log + [] == l.log;
  }

  lemma FindsObject(l: Loop, fd: int, listening: bool)
    requires Inv(l)
    ensures var (l1, id) := GetDescriptorInfo(l, fd, listening); Finds(l, l1, id, fd, listening)
  {
    GetKeepsInv(l, fd, listening);
    NewIsUnspent(listening);
    hide NewDescriptor, K.Inv, Balanced, SocketOk;
    assert ObjectOk(l, l.nextId);
  }

  /** The handler's choice among the commands. */
  lemma Dispatches(l: Loop, id: Id, m: E.Message)
    requires m.SocketMessage? && id in l.objects
    ensures
      var l' := HandleCommand(l, id, m);
      match Decode(m.data)
      case Close => l' == HandleClose(l, id, m.port, m.closeSafe, m.accepted)
      case ReturnTokens(count) => l' == HandleReturn(l, id, m.port, count, m.accepted)
      case SetEventMask(events) => l' == HandleSetMask(l, id, m.port, events, m.accepted)
      case Unreachable => true
      case _ => l' == Check(l, l.objects[id].d.Single?, ListeningShutdown)
  {
    hide Decode, HandleClose, HandleReturn, HandleSetMask;
  }

  lemma CommandIsObeyed(l: Loop, id: Id, m: E.Message)
    requires Inv(l) && id in l.objects && m.SocketMessage? && CommandLegal(l, id, m)
    ensures Obeys(l, HandleCommand(l, id, m), id, m)
  {
    hide Inv, Decode, HandleClose, HandleReturn, HandleSetMask, HandleCommand, Settles, Listens, Earns, Closes,
         P.Outstanding, Ports, Update;
    Dispatches(l, id, m);
    match Decode(m.data) {
      case Close => CloseEffect(l, id, m.port, m.closeSafe, m.accepted);
      case ReturnTokens(count) => ReturnEffect(l, id, m.port, count, m.accepted);
      case SetEventMask(events) =>
        AnyMask(events);
        SetMaskEffect(l, id, m.port, events, m.accepted);
      case _ =>
    }
  }

  /** A message finds the object of its descriptor number, makes one if there is none, and its command is obeyed. */
  lemma MessageIsObeyed(l: Loop, m: E.Message)
    requires Inv(l) && m.SocketMessage? && MessageLegal(l, m)
    ensures
      if m.fd == -1 then HandleMessage(l, m) == l
      else exists l1, id :: Finds(l, l1, id, m.fd, IsListening(m.data)) && Obeys(l1, HandleMessage(l, m), id, m)
  {
    hide Inv, HandleCommand, CommandLegal, GetDescriptorInfo, IsListening, Obeys, Finds;
    if m.fd != -1 {
      var (l1, id) := GetDescriptorInfo(l, m.fd, IsListening(m.data));
      FindsObject(l, m.fd, IsListening(m.data));
      GetKeepsInv(l, m.fd, IsListening(m.data));
      CommandIsObeyed(l1, id, m);
    }
  }

  // ---------- the end of the run ----------

  /** The round brings the message to stop. */
  ghost predicate Stops(r: Round)
  {
    Interrupt in r.reports && E.ShutdownMessage in r.messages
  }

  lemma UpdateGoesOn(l: Loop, oldMask: Events, id: Id, accepted: bool)
    requires id in l.objects
    ensures Update(l, oldMask, id, accepted).shutdown == l.shutdown
  {
    hide Mask, NotifyAll, Added, K.FiltersOf;
  }

  lemma CloseGoesOn(l: Loop, id: Id, port: Port, closeSafe: bool, accepted: bool)
    requires id in l.objects
    ensures HandleClose(l, id, port, closeSafe, accepted).shutdown == l.shutdown
  {
    hide Update, RemovePort, Mask;
    UpdateGoesOn(WithoutPort(l, id, port), Mask(l.objects[id].d), id, accepted);
  }

  /** Any other command changes one descriptor, checks some assertions and brings the registrations up to date. */
  lemma ChangeGoesOn(l: Loop, id: Id, d': Descriptor, fs: set<Fault>, rs: seq<E.Record>, accepted: bool)
    requires id in l.objects
    ensures
      var l1 := Logged(SetDescriptor(l.(faults := fs), id, d'), rs);
      Update(l1, Mask(l.objects[id].d), id, accepted).shutdown == l.shutdown
  {
    hide Update, Mask;
    UpdateGoesOn(Logged(SetDescriptor(l.(faults := fs), id, d'), rs), Mask(l.objects[id].d), id, accepted);
  }

  lemma ReturnGoesOn(l: Loop, id: Id, port: Port, count: nat, accepted: bool)
    requires id in l.objects
    ensures HandleReturn(l, id, port, count, accepted).shutdown == l.shutdown
  {
    hide Update, ReturnTokensTo, Mask, NotOverfull;
    var d := l.objects[id].d;
    var d' := ReturnTokensTo(d, port, count);
    var l1 := Check(Check(l, d.Single? || port in d.ports, UnknownPort), d.Multiple? || d.port == port, WrongPort);
    var l2 := Check(l1, NotOverfull(d', port), TooManyTokens);
    ChangeGoesOn(l, id, d', l2.faults, [E.Returned(id, port, count)], accepted);
  }

  lemma SetMaskGoesOn(l: Loop, id: Id, port: Port, events: Events, accepted: bool)
    requires id in l.objects
    ensures HandleSetMask(l, id, port, events, accepted).shutdown == l.shutdown
  {
    hide Update, SetPortAndMask, Mask, Ports;
    var d := l.objects[id].d;
    var l1 := Check(l, events & !(IN_EVENT | OUT_EVENT) == 0, BadEventMask);
    var l2 := Check(l1, d.Multiple? || d.port == ILLEGAL_PORT || d.port == port, WrongPort);
    var l3 := Check(l2, d.Single? || events == 0 || events == IN_EVENT, ListeningMask);
    var rs := if port in Ports(d) then [] else [E.Attached(id, port)];
    ChangeGoesOn(l, id, SetPortAndMask(d, port, events), l3.faults, rs, accepted);
  }

  lemma MessageStops(l: Loop, m: E.Message)
    ensures HandleMessage(l, m).shutdown <==> l.shutdown || m.ShutdownMessage?
  {
    hide Decode, HandleClose, HandleReturn, HandleSetMask, IsListening, NewDescriptor;
    if m.SocketMessage? {
      var (l1, id) := GetDescriptorInfo(l, m.fd, IsListening(m.data));
      if id in l1.objects {
        match Decode(m.data) {
          case Close => CloseGoesOn(l1, id, m.port, m.closeSafe, m.accepted);
          case ReturnTokens(count) => ReturnGoesOn(l1, id, m.port, count, m.accepted);
          case SetEventMask(events) => SetMaskGoesOn(l1, id, m.port, events, m.accepted);
          case _ =>
        }
      }
    }
  }

  lemma {:induction false} MessagesStop(l: Loop, ms: seq<E.Message>)
    ensures HandleMessages(l, ms).shutdown <==> l.shutdown || E.ShutdownMessage in ms
    decreases ms
  {
    hide HandleMessage;
    if ms != [] {
      MessageStops(l, ms[0]);
      MessagesStop(HandleMessage(l, ms[0]), ms[1..]);
    }
  }

  lemma EventGoesOn(l: Loop, e: Report)
    requires e.Ready?
    ensures HandleReady(l, e).shutdown == l.shutdown
  {
    hide Update, NextNotify, NotifyAll, GetEvents, Mask, Ports;
    if e.id in l.objects {
      var d := l.objects[e.id].d;
      var mask := GetEvents(d.Multiple?, e.write, e.eof, e.error);
      var (d', port) := NextNotify(d);
      var l1 := Check(l, d.Single? || !e.write, ListeningWrite);
      var l2 := Check(Check(l1, d.Single? || mask == IN_EVENT, ListeningReport), port != ILLEGAL_PORT, NoPort);
      ChangeGoesOn(l, e.id, NotifyAll(d), l1.faults, [E.Broadcast(e.id, Ports(d), mask)], e.accepted);
      ChangeGoesOn(l, e.id, d', l2.faults, [E.Notified(e.id, port, mask)], e.accepted);
    }
  }

  lemma {:induction false} ReportsGoOn(l: Loop, es: seq<Report>)
    ensures HandleReports(l, es).shutdown == l.shutdown
    decreases es
  {
    hide HandleReady;
    if es != [] {
      if es[0].Ready? {
        EventGoesOn(l, es[0]);
      }
      ReportsGoOn(if es[0].Interrupt? then l else HandleReady(l, es[0]), es[1..]);
    }
  }

  /** Rounds up to the first that stops, which is handled to its end. */
  ghost function UntilStop(rs: seq<Round>): (n: nat)
    ensures n <= |rs| && forall i :: 0 <= i < n - 1 ==> !Stops(rs[i])
    ensures n < |rs| ==> n > 0 && Stops(rs[n - 1])
  {
    if rs == [] then 0 else if Stops(rs[0]) then 1 else 1 + UntilStop(rs[1..])
  }

  ghost function AllRounds(l: Loop, rs: seq<Round>): (l': Loop)
    decreases rs
  {
    if rs == [] then l else AllRounds(HandleRound(l, rs[0]), rs[1..])
  }

  /** The loop handles every round up to the first that brings the message to stop, and no later one. */
  lemma {:induction false} RunEndsAtStop(l: Loop, rs: seq<Round>)
    requires !l.shutdown
    ensures Poll(l, rs) == AllRounds(l, rs[..UntilStop(rs)])
    decreases rs
  {
    if rs != [] {
      ReportsGoOn(l, rs[0].reports);
      MessagesStop(HandleReports(l, rs[0].reports), rs[0].messages);
      var n := UntilStop(rs);
      assert rs[..n][0] == rs[0] && rs[..n][1..] == rs[1..][..n - 1];
      hide HandleReports, HandleMessages;
      if Stops(rs[0]) {
        assert rs[1..][..0] == [];
      } else {
        RunEndsAtStop(HandleRound(l, rs[0]), rs[1..]);
      }
    }
  }
}
