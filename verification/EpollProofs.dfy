/** What holds in every run of the Linux event loop. */
module EpollProofs {
  import opened Flags
  import opened DescriptorSpec
  import opened EpollSpec
  import Heap = HeapSpec

  // ---------- what the kernel and the isolates are trusted with ----------

  /** The kernel reports `events` for a registration that carries the object `id`. */
  ghost predicate Reported(l: Loop, id: Id, events: bv32)
  {
    exists fd ::
      && fd in l.epoll
      && l.epoll[fd].di == id
      && events & !(l.epoll[fd].events | EPOLLERR | EPOLLHUP) == 0
  }

  /** A listening descriptor reports readiness to accept, or an error, and nothing else. */
  ghost predicate ListeningReportOk(l: Loop, id: Id, events: bv32)
  {
    id in l.infos && l.infos[id].d.Multiple? ==>
      EventMask(events) == 0 || EventMask(events) == IN_EVENT || EventMask(events) == ERROR_EVENT
  }

  ghost predicate Expired(t: Timespec, now: int)
  {
    t != Timespec(0, 0) && t.sec * 1000 + t.nsec / 1000000 <= now
  }

  ghost predicate BatchLegal(l: Loop, es: seq<Event>, now: int)
  {
    && (forall i :: 0 <= i < |es| && es[i].report.DescriptorReady? ==>
          && Reported(l, es[i].report.di, es[i].report.events)
          && ListeningReportOk(l, es[i].report.di, es[i].report.events))
    && (forall i :: 0 <= i < |es| && es[i].report.TimerReady? ==> Expired(l.armed, now))
    && OncePerSource(es)
  }

  /** A batch names no descriptor and not the timer twice. */
  ghost predicate OncePerSource(es: seq<Event>)
  {
    forall i, j :: 0 <= i < j < |es| && !es[i].report.InterruptReady? ==>
      (es[i].report.TimerReady? ==> !es[j].report.TimerReady?) &&
      (es[i].report.DescriptorReady? && es[j].report.DescriptorReady? ==> es[i].report.di != es[j].report.di)
  }

  /** Effect of a record on the notifications that port `p` of `di` has received and not yet given back. */
  function OutstandingAfter(n: int, r: Record, di: Id, p: Port): (m: int)
  {
    match r
    case Attached(di', p') => if di' == di && p' == p then 0 else n
    case Notified(di', p', _) => if di' == di && p' == p then n + 1 else n
    case Broadcast(di', ps, _) => if di' == di && p in ps then n + 1 else n
    case Returned(di', p', count) => if di' == di && p' == p then n - count else n
    case _ => n
  }

  function Outstanding(log: seq<Record>, di: Id, p: Port): (n: int)
  {
    if log == [] then 0 else OutstandingAfter(Outstanding(log[..|log| - 1], di, p), log[|log| - 1], di, p)
  }

  /** Broadcasts that port `p` of `di` received since it was attached. */
  function BroadcastsAfter(n: nat, r: Record, di: Id, p: Port): (m: nat)
  {
    match r
    case Attached(di', p') => if di' == di && p' == p then 0 else n
    case Broadcast(di', ps, _) => if di' == di && p in ps then n + 1 else n
    case _ => n
  }

  function BroadcastsTo(log: seq<Record>, di: Id, p: Port): (n: nat)
  {
    if log == [] then 0 else BroadcastsAfter(BroadcastsTo(log[..|log| - 1], di, p), log[|log| - 1], di, p)
  }

  ghost predicate CommandLegal(l: Loop, id: Id, m: Message)
    requires m.SocketMessage? && id in l.infos
  {
    var d := l.infos[id].d;
    match Decode(m.data)
    case ShutdownRead => d.Single?
    case ShutdownWrite => d.Single?
    case Close => if d.Single? then d.port == ILLEGAL_PORT || d.port == m.port
                  else m.closeSafe ==> Ports(d) <= {m.port}
    case ReturnTokens(count) => m.port in Ports(d) && count <= Outstanding(l.log, id, m.port)
    case SetEventMask(events) =>
      && m.port != ILLEGAL_PORT
      && if d.Single? then events & !(IN_EVENT | OUT_EVENT) == 0 && (d.port == ILLEGAL_PORT || d.port == m.port)
         else events == 0 || events == IN_EVENT
    case Unreachable => false
  }

  ghost predicate MessageLegal(l: Loop, m: Message)
  {
    m.SocketMessage? && m.fd != -1 ==>
      var (l1, id) := GetDescriptorInfo(l, m.fd, IsListening(m.data));
      (id in l1.infos ==> CommandLegal(l1, id, m))
  }

  ghost predicate MessagesLegal(l: Loop, ms: seq<Message>)
    decreases ms
  {
    ms == [] || (MessageLegal(l, ms[0]) && MessagesLegal(HandleMessage(l, ms[0]), ms[1..]))
  }

  ghost predicate RoundLegal(l: Loop, r: Round)
  {
    && BatchLegal(l, r.events, r.now)
    && (InterruptSeen(r.events) ==> MessagesLegal(HandleReports(l, r.events, r.now), r.messages))
  }

  ghost predicate RunLegal(l: Loop, rs: seq<Round>)
    decreases rs
  {
    rs == [] || l.shutdown || (RoundLegal(l, rs[0]) && RunLegal(HandleRound(l, rs[0]), rs[1..]))
  }

  // ---------- the invariant ----------

  /** The socket map and the live objects name each other. */
  ghost predicate Linked(l: Loop)
  {
    && (forall fd :: fd in l.sockets ==> l.sockets[fd] in l.infos && l.infos[l.sockets[fd]].fd == fd)
    && (forall id :: id in l.infos ==> id < l.nextId && l.infos[id].fd in l.sockets && l.sockets[l.infos[id].fd] == id)
  }

  ghost predicate DescriptorOk(d: Descriptor)
  {
    && Valid(d)
    && (d.Single? ==> 0 <= d.tokens && (d.port == ILLEGAL_PORT ==> d.tokens == SINGLE_TOKENS))
  }

  ghost predicate Descriptors(l: Loop)
  {
    forall id :: id in l.infos ==> DescriptorOk(l.infos[id].d)
  }

  /** A registered descriptor is live, is the one in the map, and is registered for exactly its current mask. */
  ghost predicate Registered(l: Loop)
  {
    forall fd :: fd in l.epoll ==> MirrorAt(l, fd)
  }

  /** The mirror at one descriptor number. */
  ghost predicate MirrorAt(l: Loop, fd: int)
    requires fd in l.epoll
  {
    && fd in l.sockets && l.epoll[fd].di == l.sockets[fd] && l.sockets[fd] in l.infos
    && Mask(l.infos[l.sockets[fd]].d) != 0
    && l.epoll[fd].events == WantedEvents(l.infos[l.sockets[fd]].d)
  }

  /** A port has its initial credit less what it received and has not given back; only broadcasts put it in debt. */
  ghost predicate PortBalance(log: seq<Record>, id: Id, d: Descriptor, p: Port)
    requires p in Ports(d)
  {
    && Tokens(d, p) == InitialTokens(d) - Outstanding(log, id, p)
    && Tokens(d, p) + BroadcastsTo(log, id, p) >= 0
  }

  ghost predicate BalanceAt(log: seq<Record>, id: Id, d: Descriptor)
  {
    forall p :: p in Ports(d) ==> PortBalance(log, id, d, p)
  }

  ghost predicate CreditsBalance(l: Loop)
  {
    forall id :: id in l.infos ==> BalanceAt(l.log, id, l.infos[id].d)
  }

  /** Every descriptor with a mask is registered. */
  ghost predicate Complete(l: Loop)
  {
    forall id :: id in l.infos && Mask(l.infos[id].d) != 0 ==> l.infos[id].fd in l.epoll
  }

  /** The kernel has refused no registration so far: no close event was broadcast. */
  ghost predicate NoneRefused(log: seq<Record>)
  {
    forall r :: r in log ==> !(r.Broadcast? && r.events == CLOSE_EVENT)
  }

  ghost predicate Inv(l: Loop)
  {
    && l.faults == {} && Linked(l) && Descriptors(l) && Registered(l) && CreditsBalance(l)
    && (NoneRefused(l.log) ==> Complete(l))
  }

  // ---------- one change of one descriptor ----------

  lemma OutstandingStep(log: seq<Record>, r: Record, di: Id, p: Port)
    ensures Outstanding(log + [r], di, p) == OutstandingAfter(Outstanding(log, di, p), r, di, p)
    ensures BroadcastsTo(log + [r], di, p) == BroadcastsAfter(BroadcastsTo(log, di, p), r, di, p)
  {
    assert (log + [r])[..|log|] == log;
  }

  /** `l'` is `l` with descriptor `id` replaced by `d'` and the records `rs` about it added. */
  ghost predicate Changed(l: Loop, l': Loop, id: Id, d': Descriptor, rs: seq<Record>)
    requires id in l.infos
  {
    && l'.infos == l.infos[id := Info(l.infos[id].fd, d')]
    && l'.sockets == l.sockets && l'.nextId == l.nextId && l'.faults == l.faults
    && l'.epoll == l.epoll && l'.log == l.log + rs
    && l'.timers == l.timers && l'.armed == l.armed && l'.shutdown == l.shutdown
  }

  ghost predicate MirrorBut(l: Loop, id: Id)
    requires id in l.infos
  {
    forall fd :: fd in l.epoll && fd != l.infos[id].fd ==> MirrorAt(l, fd)
  }

  /** All that `UpdateEpoll` relies on after a change: the registration still shows the old mask. */
  ghost predicate Pending(l: Loop, id: Id, oldMask: Events)
  {
    && l.faults == {} && Linked(l) && id in l.infos && MirrorBut(l, id)
    && (l.infos[id].fd in l.epoll ==>
          && oldMask != 0
          && l.epoll[l.infos[id].fd].di == id
          && (Mask(l.infos[id].d) == oldMask ==> l.epoll[l.infos[id].fd].events == WantedEvents(l.infos[id].d)))
    && (l.infos[id].d.Multiple? && oldMask != 0 ==> oldMask == IN_EVENT)
  }

  lemma ChangeIsPending(l: Loop, l': Loop, id: Id, d': Descriptor, rs: seq<Record>)
    requires l.faults == {} && Linked(l) && Registered(l) && id in l.infos && Changed(l, l', id, d', rs)
    requires d'.Single? == l.infos[id].d.Single?
    ensures Pending(l', id, Mask(l.infos[id].d))
  {
    forall fd | fd in l'.epoll && fd != l'.infos[id].fd
      ensures MirrorAt(l', fd)
    {
      assert MirrorAt(l, fd);
    }
    if l.infos[id].fd in l.epoll {
      assert MirrorAt(l, l.infos[id].fd);
    }
  }

  /** What an update of the interest set leaves: nothing but the registration changed, or a refusal was broadcast. */
  ghost predicate Updated(l: Loop, l': Loop, id: Id)
    requires id in l.infos
  {
    var Info(fd, d) := l.infos[id];
    var kernel := l.(epoll := l'.epoll);
    && (forall n :: n != fd ==> (n in l'.epoll <==> n in l.epoll))
    && (l' == kernel || (Mask(d) != 0 && l' == NotifyAllPorts(kernel, id, CLOSE_EVENT)))
  }

  lemma AddRestores(l: Loop, id: Id, accepted: bool)
    requires l.faults == {} && Linked(l) && id in l.infos && MirrorBut(l, id)
    requires l.infos[id].fd !in l.epoll && Mask(l.infos[id].d) != 0
    ensures
      var l' := AddToEpoll(l, id, accepted);
      && l'.faults == {} && Linked(l') && Registered(l') && Updated(l, l', id)
      && (l' == l.(epoll := l'.epoll) ==> l.infos[id].fd in l'.epoll)
  {
    var l' := AddToEpoll(l, id, accepted);
    forall fd | fd in l'.epoll
      ensures MirrorAt(l', fd)
    {
      if fd != l.infos[id].fd {
        assert MirrorAt(l, fd);
      }
    }
  }

  lemma RemoveRestores(l: Loop, id: Id)
    requires l.faults == {} && Linked(l) && id in l.infos && MirrorBut(l, id)
    ensures
      var l' := RemoveFromEpoll(l, id);
      && l'.faults == {} && Linked(l') && Registered(l') && Updated(l, l', id)
      && MirrorBut(l', id) && l.infos[id].fd !in l'.epoll
  {
    var l' := RemoveFromEpoll(l, id);
    assert forall fd :: fd in l'.epoll ==> MirrorAt(l, fd) && MirrorAt(l', fd);
  }

  lemma UntouchedRestores(l: Loop, oldMask: Events, id: Id)
    requires Pending(l, id, oldMask) && Mask(l.infos[id].d) == oldMask
    ensures Registered(l) && Updated(l, l, id)
  {
    forall fd | fd in l.epoll
      ensures MirrorAt(l, fd)
    {
      if fd == l.infos[id].fd {
        assert l.sockets[fd] == id;
      }
    }
  }

  /** Bringing the interest set up to date restores the mirror. */
  lemma UpdateEpollRestores(l: Loop, oldMask: Events, id: Id, accepted: bool)
    requires Pending(l, id, oldMask)
    ensures
      var l' := UpdateEpoll(l, oldMask, id, accepted);
      && l'.faults == {} && Linked(l') && Registered(l') && Updated(l, l', id)
      && (l' == l.(epoll := l'.epoll) && Mask(l.infos[id].d) != 0 && (oldMask != 0 ==> l.infos[id].fd in l.epoll) ==>
            l.infos[id].fd in l'.epoll)
  {
    var newMask := Mask(l.infos[id].d);
    if oldMask == newMask {
      UntouchedRestores(l, oldMask, id);
    } else if newMask == 0 {
      RemoveRestores(l, id);
    } else if oldMask == 0 {
      AddRestores(l, id, accepted);
    } else {
      RemoveRestores(l, id);
      AddRestores(RemoveFromEpoll(l, id), id, accepted);
    }
  }

  predicate About(r: Record, id: Id)
  {
    match r
    case Attached(di, _) => di == id
    case Notified(di, _, _) => di == id
    case Broadcast(di, _, _) => di == id
    case Returned(di, _, _) => di == id
    case _ => true
  }

  lemma {:induction false} OutstandingOfOthers(log: seq<Record>, rs: seq<Record>, id: Id, di: Id, p: Port)
    requires di != id && forall r :: r in rs ==> About(r, id)
    ensures Outstanding(log + rs, di, p) == Outstanding(log, di, p)
    ensures BroadcastsTo(log + rs, di, p) == BroadcastsTo(log, di, p)
  {
    if rs == [] {
      assert log + rs == log;
    } else {
      var n := |rs| - 1;
      assert rs[n] in rs;
      OutstandingOfOthers(log, rs[..n], id, di, p);
      assert log + rs == (log + rs[..n]) + [rs[n]];
      OutstandingStep(log + rs[..n], rs[n], di, p);
    }
  }

  lemma ChangeKeepsBalance(l: Loop, l': Loop, id: Id, d': Descriptor, rs: seq<Record>)
    requires CreditsBalance(l) && id in l.infos && Changed(l, l', id, d', rs)
    requires (forall r :: r in rs ==> About(r, id)) && BalanceAt(l'.log, id, d')
    ensures CreditsBalance(l')
  {
    forall di, p | di in l'.infos && di != id && p in Ports(l'.infos[di].d)
      ensures PortBalance(l'.log, di, l'.infos[di].d, p)
    {
      assert PortBalance(l.log, di, l.infos[di].d, p);
      OutstandingOfOthers(l.log, rs, id, di, p);
    }
  }

  lemma BroadcastKeepsDescriptor(log: seq<Record>, id: Id, d: Descriptor, events: Events)
    requires DescriptorOk(d) && Mask(d) != 0 && BalanceAt(log, id, d)
    ensures DescriptorOk(NotifyAll(d)) && Ports(NotifyAll(d)) == Ports(d)
    ensures BalanceAt(log + [Broadcast(id, Ports(d), events)], id, NotifyAll(d))
  {
    NotifyAllValid(d);
    forall p | p in Ports(d)
      ensures PortBalance(log + [Broadcast(id, Ports(d), events)], id, NotifyAll(d), p)
    {
      assert PortBalance(log, id, d, p);
      OutstandingStep(log, Broadcast(id, Ports(d), events), id, p);
    }
  }

  lemma ChangeKeepsComplete(l: Loop, l1: Loop, l2: Loop, id: Id, d': Descriptor, rs: seq<Record>)
    requires (NoneRefused(l.log) ==> Complete(l)) && Linked(l) && id in l.infos && Changed(l, l1, id, d', rs)
    requires Updated(l1, l2, id)
    requires && l2 == l1.(epoll := l2.epoll) && Mask(d') != 0
             && (Mask(l.infos[id].d) != 0 ==> l.infos[id].fd in l.epoll) ==>
               l.infos[id].fd in l2.epoll
    ensures NoneRefused(l2.log) ==> Complete(l2)
  {
    if l2 == l1.(epoll := l2.epoll) {
      assert forall r :: r in l.log ==> r in l2.log;
    } else {
      assert l2.log[|l2.log| - 1] == Broadcast(id, Ports(d'), CLOSE_EVENT);
    }
  }

  /** A change of one descriptor that keeps its own invariant and ledger, followed by the update, keeps everything. */
  lemma ChangeKeepsInv(l: Loop, l1: Loop, id: Id, d': Descriptor, rs: seq<Record>, accepted: bool)
    requires Inv(l) && id in l.infos && Changed(l, l1, id, d', rs)
    requires d'.Single? == l.infos[id].d.Single? && DescriptorOk(d')
    requires (forall r :: r in rs ==> About(r, id)) && BalanceAt(l1.log, id, d')
    ensures Inv(UpdateEpoll(l1, Mask(l.infos[id].d), id, accepted))
  {
    hide NextNotify, NotifyAll, Valid;
    var oldMask := Mask(l.infos[id].d);
    var l2 := UpdateEpoll(l1, oldMask, id, accepted);
    ChangeIsPending(l, l1, id, d', rs);
    ChangeKeepsBalance(l, l1, id, d', rs);
    UpdateEpollRestores(l1, oldMask, id, accepted);
    ChangeKeepsComplete(l, l1, l2, id, d', rs);
    var kernel := l1.(epoll := l2.epoll);
    if l2 != kernel {
      BroadcastKeepsDescriptor(l1.log, id, d', CLOSE_EVENT);
      ChangeKeepsBalance(kernel, l2, id, NotifyAll(d'), [Broadcast(id, Ports(d'), CLOSE_EVENT)]);
    }
  }

  // ---------- the steps ----------

  /** Only descriptor `id` and the interest set differ, apart from records and faults. */
  ghost predicate OnlyDescriptor(l: Loop, l': Loop, id: Id)
  {
    && l'.infos.Keys == l.infos.Keys
    && (forall di :: di in l.infos && di != id ==> l'.infos[di] == l.infos[di])
    && l'.timers == l.timers && l'.armed == l.armed
  }

  lemma LastMask(d: Descriptor)
    requires Valid(d) && Mask(d) != 0
    ensures Mask(NextNotify(d).0) == Mask(d) || Mask(NextNotify(d).0) == 0
  {
  }

  lemma NotifyBalance(log: seq<Record>, id: Id, d: Descriptor, events: Events)
    requires DescriptorOk(d) && Mask(d) != 0 && BalanceAt(log, id, d)
    ensures
      var (d', port) := NextNotify(d);
      port != ILLEGAL_PORT && DescriptorOk(d') && BalanceAt(log + [Notified(id, port, events)], id, d')
  {
    var (d', port) := NextNotify(d);
    NextNotifyValid(d);
    forall p | p in Ports(d')
      ensures PortBalance(log + [Notified(id, port, events)], id, d', p)
    {
      assert PortBalance(log, id, d, p);
      OutstandingStep(log, Notified(id, port, events), id, p);
    }
  }

  lemma NotifyKeepsInv(l: Loop, id: Id, mask: Events, accepted: bool)
    requires Inv(l) && id in l.infos && Mask(l.infos[id].d) != 0
    ensures
      var (d', port) := NextNotify(l.infos[id].d);
      var updated := UpdateEpoll(SetDescriptor(l, id, d'), Mask(l.infos[id].d), id, accepted);
      var l' := Logged(updated, [Notified(id, port, mask)]);
      port != ILLEGAL_PORT && Inv(l') && OnlyDescriptor(l, l', id)
  {
    var d := l.infos[id].d;
    var (d', port) := NextNotify(d);
    NotifyBalance(l.log, id, d, mask);
    LastMask(d);
    var l1 := SetDescriptor(l, id, d');
    var r := Notified(id, port, mask);
    var l2 := Logged(l1, [r]);
    assert Logged(UpdateEpoll(l1, Mask(d), id, accepted), [r]) == UpdateEpoll(l2, Mask(d), id, accepted);
    ChangeKeepsInv(l, l2, id, d', [r], accepted);
  }

  lemma ErrorKeepsInv(l: Loop, id: Id, mask: Events, accepted: bool)
    requires Inv(l) && id in l.infos && Mask(l.infos[id].d) != 0
    ensures
      var l' := UpdateEpoll(NotifyAllPorts(l, id, mask), Mask(l.infos[id].d), id, accepted);
      Inv(l') && OnlyDescriptor(l, l', id)
  {
    var d := l.infos[id].d;
    ErrorTouchesOnly(l, id, mask, accepted);
    hide UpdateEpoll, NotifyAll, Registered, Complete, Linked, BalanceAt, DescriptorOk, OnlyDescriptor;
    var r := Broadcast(id, Ports(d), mask);
    BroadcastKeepsDescriptor(l.log, id, d, mask);
    ChangeKeepsInv(l, NotifyAllPorts(l, id, mask), id, NotifyAll(d), [r], accepted);
  }

  lemma ErrorTouchesOnly(l: Loop, id: Id, mask: Events, accepted: bool)
    requires id in l.infos
    ensures OnlyDescriptor(l, UpdateEpoll(NotifyAllPorts(l, id, mask), Mask(l.infos[id].d), id, accepted), id)
  {
    hide Mask, NotifyAll;
  }

  /** A report for a live descriptor with a mask is handled without a fault. */
  lemma ReadyKeepsInv(l: Loop, id: Id, events: bv32, accepted: bool)
    requires Inv(l) && id in l.infos && Mask(l.infos[id].d) != 0 && ListeningReportOk(l, id, events)
    ensures Inv(HandleReady(l, id, events, accepted)) && OnlyDescriptor(l, HandleReady(l, id, events, accepted), id)
  {
    var mask := EventMask(events);
    if mask & ERROR_EVENT != 0 {
      ErrorKeepsInv(l, id, mask, accepted);
    } else if mask != 0 {
      NotifyKeepsInv(l, id, mask, accepted);
    }
  }

  lemma GetKeepsInv(l: Loop, fd: int, listening: bool)
    requires Inv(l)
    ensures
      var (l1, id) := GetDescriptorInfo(l, fd, listening);
      && Inv(l1) && id in l1.infos && l1.infos[id].fd == fd
      && l1.log == l.log && l1.timers == l.timers && l1.armed == l.armed
  {
    var (l1, id) := GetDescriptorInfo(l, fd, listening);
    forall n | n in l1.epoll
      ensures MirrorAt(l1, n)
    {
      assert MirrorAt(l, n);
    }
  }

  lemma ReturnBalance(log: seq<Record>, id: Id, d: Descriptor, port: Port, count: nat)
    requires DescriptorOk(d) && port in Ports(d) && BalanceAt(log, id, d) && count <= Outstanding(log, id, port)
    ensures
      var d' := ReturnTokensTo(d, port, count);
      && DescriptorOk(d') && BalanceAt(log + [Returned(id, port, count)], id, d')
      && Ports(d') == Ports(d) && Tokens(d', port) <= InitialTokens(d') && d'.Single? == d.Single?
  {
    hide Outstanding, BroadcastsTo;
    var d' := ReturnTokensTo(d, port, count);
    ReturnTokensValid(d, port, count);
    assert PortBalance(log, id, d, port);
    forall p | p in Ports(d')
      ensures PortBalance(log + [Returned(id, port, count)], id, d', p)
    {
      assert PortBalance(log, id, d, p);
      OutstandingStep(log, Returned(id, port, count), id, p);
    }
  }

  lemma ReturnKeepsInv(l: Loop, id: Id, port: Port, count: nat, accepted: bool)
    requires Inv(l) && id in l.infos && port in Ports(l.infos[id].d) && count <= Outstanding(l.log, id, port)
    ensures Inv(HandleReturn(l, id, port, count, accepted))
  {
    hide ReturnTokensTo, UpdateEpoll, Outstanding, BalanceAt, DescriptorOk, Registered, Complete, Linked;
    var d := l.infos[id].d;
    var d' := ReturnTokensTo(d, port, count);
    ReturnBalance(l.log, id, d, port, count);
    var r := Returned(id, port, count);
    ChangeKeepsInv(l, Logged(SetDescriptor(l, id, d'), [r]), id, d', [r], accepted);
  }

  lemma SetMaskBalance(log: seq<Record>, id: Id, d: Descriptor, port: Port, events: Events)
    requires DescriptorOk(d) && BalanceAt(log, id, d) && port != ILLEGAL_PORT
    requires d.Single? ==> d.port == ILLEGAL_PORT || d.port == port
    ensures
      var rs := if port in Ports(d) then [] else [Attached(id, port)];
      DescriptorOk(SetPortAndMask(d, port, events)) && BalanceAt(log + rs, id, SetPortAndMask(d, port, events))
  {
    var d' := SetPortAndMask(d, port, events);
    SetPortAndMaskValid(d, port, events);
    if port in Ports(d) {
      assert log + [] == log;
      assert forall p :: p in Ports(d') ==> PortBalance(log, id, d, p) && PortBalance(log, id, d', p);
    } else {
      forall p | p in Ports(d')
        ensures PortBalance(log + [Attached(id, port)], id, d', p)
      {
        assert p in Ports(d) ==> PortBalance(log, id, d, p);
        OutstandingStep(log, Attached(id, port), id, p);
      }
    }
  }

  lemma SetMaskKeepsInv(l: Loop, id: Id, port: Port, events: Events, accepted: bool)
    requires Inv(l) && id in l.infos && port != ILLEGAL_PORT && events & !(IN_EVENT | OUT_EVENT) == 0
    requires var d := l.infos[id].d;
             if d.Single? then d.port == ILLEGAL_PORT || d.port == port else events == 0 || events == IN_EVENT
    ensures Inv(HandleSetMask(l, id, port, events, accepted))
  {
    var d := l.infos[id].d;
    var d' := SetPortAndMask(d, port, events);
    SetMaskBalance(l.log, id, d, port, events);
    var rs := if port in Ports(d) then [] else [Attached(id, port)];
    ChangeKeepsInv(l, Logged(SetDescriptor(l, id, d'), rs), id, d', rs, accepted);
  }

  /** `Destroyed` records touch no ledger. */
  lemma DestroyedKeepsBalance(l: Loop, l': Loop, port: Port)
    requires CreditsBalance(l) && l'.log == l.log + [Destroyed(port)]
    requires forall id :: id in l'.infos ==> id in l.infos && l'.infos[id] == l.infos[id]
    ensures CreditsBalance(l')
  {
    forall id, p | id in l'.infos && p in Ports(l'.infos[id].d)
      ensures PortBalance(l'.log, id, l'.infos[id].d, p)
    {
      assert PortBalance(l.log, id, l.infos[id].d, p);
      OutstandingStep(l.log, Destroyed(port), id, p);
    }
  }

  /** Taking out of the map and deleting a descriptor that is not registered. */
  lemma DeleteKeepsInv(l: Loop, l': Loop, id: Id, port: Port)
    requires l.faults == {} && Linked(l) && Registered(l) && CreditsBalance(l) && id in l.infos
    requires forall di :: di in l.infos && di != id ==> DescriptorOk(l.infos[di].d)
    requires Mask(l.infos[id].d) == 0 && (NoneRefused(l.log) ==> Complete(l))
    requires l' == Logged(l.(sockets := l.sockets - {l.infos[id].fd}, infos := l.infos - {id}), [Destroyed(port)])
    ensures Inv(l')
  {
    DestroyedKeepsBalance(l, l', port);
    assert forall r :: r in l.log ==> r in l'.log;
    forall fd | fd in l'.epoll
      ensures MirrorAt(l', fd)
    {
      assert MirrorAt(l, fd);
    }
  }

  lemma WithoutPortIs(l: Loop, id: Id, port: Port)
    requires id in l.infos && Valid(l.infos[id].d)
    requires var d := l.infos[id].d; d.Single? ==> d.port == ILLEGAL_PORT || d.port == port
    ensures WithoutPort(l, id, port) == SetDescriptor(l, id, RemovePort(l.infos[id].d, port))
  {
    if port == ILLEGAL_PORT {
      NoPortToRemove(l.infos[id].d);
      assert l.infos[id := l.infos[id]] == l.infos;
    }
  }

  lemma CloseSingleKeepsInv(l: Loop, id: Id, port: Port, closeSafe: bool, accepted: bool)
    requires Inv(l) && id in l.infos
    requires var d := l.infos[id].d; d.Single? && (d.port == ILLEGAL_PORT || d.port == port)
    ensures
      var l' := HandleClose(l, id, port, closeSafe, accepted);
      var fd := l.infos[id].fd;
      && Inv(l') && l'.log == l.log + [Destroyed(port)]
      && l'.infos == l.infos - {id} && l'.sockets == l.sockets - {fd} && fd !in l'.epoll
  {
    var d := l.infos[id].d;
    var d' := RemovePort(d, port);
    var l2 := SetDescriptor(l, id, d');
    var l3 := UpdateEpoll(l2, Mask(d), id, accepted);
    assert l2.log == l.log + [];
    WithoutPortIs(l, id, port);
    hide WithoutPort;
    ChangeIsPending(l, l2, id, d', []);
    UpdateEpollRestores(l2, Mask(d), id, accepted);
    ChangeKeepsComplete(l, l2, l3, id, d', []);
    ChangeKeepsBalance(l, l2, id, d', []);
    DeleteKeepsInv(l3, HandleClose(l, id, port, closeSafe, accepted), id, port);
  }

  /** One port of a listening socket goes, and its descriptor with it when the listener says so. */
  lemma CloseListeningEffect(l: Loop, id: Id, port: Port, closeSafe: bool, accepted: bool)
    requires id in l.infos && l.infos[id].d.Multiple? && Valid(l.infos[id].d)
    ensures
      var l' := HandleClose(l, id, port, closeSafe, accepted);
      var Info(fd, d) := l.infos[id];
      && l'.log == l.log + [Destroyed(port)]
      && (closeSafe ==> l'.infos == l.infos - {id} && l'.sockets == l.sockets - {fd})
      && (!closeSafe ==> l'.infos == l.infos[id := Info(fd, RemovePort(d, port))] && l'.sockets == l.sockets)
  {
    var d := l.infos[id].d;
    WithoutPortIs(l, id, port);
    hide WithoutPort;
    assert Mask(RemovePort(d, port)) == 0 || Mask(RemovePort(d, port)) == Mask(d);
  }

  lemma CloseListeningRestores(l: Loop, id: Id, port: Port, closeSafe: bool, accepted: bool)
    requires Inv(l) && id in l.infos
    requires var d := l.infos[id].d; d.Multiple? && (closeSafe ==> Ports(d) <= {port})
    ensures Inv(HandleClose(l, id, port, closeSafe, accepted))
  {
    var d := l.infos[id].d;
    var d' := RemovePort(d, port);
    var l2 := SetDescriptor(l, id, d');
    var l3 := UpdateEpoll(l2, Mask(d), id, accepted);
    assert l2.log == l.log + [];
    RemovePortValid(d, port);
    WithoutPortIs(l, id, port);
    hide WithoutPort;
    assert forall p :: p in Ports(d') ==> PortBalance(l.log, id, d, p) && PortBalance(l2.log, id, d', p);
    ChangeKeepsInv(l, l2, id, d', [], accepted);
    if closeSafe {
      EmptyHasNoMask(d');
      ChangeIsPending(l, l2, id, d', []);
      UpdateEpollRestores(l2, Mask(d), id, accepted);
      DeleteKeepsInv(l3, HandleClose(l, id, port, closeSafe, accepted), id, port);
    } else {
      DestroyedKeepsInv(l3, port);
    }
  }

  lemma CloseListeningKeepsInv(l: Loop, id: Id, port: Port, closeSafe: bool, accepted: bool)
    requires Inv(l) && id in l.infos
    requires var d := l.infos[id].d; d.Multiple? && (closeSafe ==> Ports(d) <= {port})
    ensures
      var l' := HandleClose(l, id, port, closeSafe, accepted);
      var Info(fd, d) := l.infos[id];
      && Inv(l') && l'.log == l.log + [Destroyed(port)]
      && (closeSafe ==> l'.infos == l.infos - {id} && l'.sockets == l.sockets - {fd} && fd !in l'.epoll)
      && (!closeSafe ==> l'.infos == l.infos[id := Info(fd, RemovePort(d, port))] && l'.sockets == l.sockets)
  {
    assert DescriptorOk(l.infos[id].d);
    hide HandleClose, Mask, WantedEvents, DescriptorOk, PortBalance, Complete;
    CloseListeningRestores(l, id, port, closeSafe, accepted);
    CloseListeningEffect(l, id, port, closeSafe, accepted);
  }

  lemma DestroyedKeepsInv(l: Loop, port: Port)
    requires Inv(l)
    ensures Inv(Logged(l, [Destroyed(port)]))
  {
    var l' := Logged(l, [Destroyed(port)]);
    DestroyedKeepsBalance(l, l', port);
    assert forall n :: n in l.epoll ==> MirrorAt(l, n) && MirrorAt(l', n);
    assert forall r :: r in l.log ==> r in l'.log;
  }

  lemma EmptyHasNoMask(d: Descriptor)
    requires Valid(d) && Ports(d) == {}
    ensures Mask(d) == 0
  {
  }

  lemma TimersKeepInv(l: Loop, l': Loop, r: Record)
    requires Inv(l) && (r.TimerSet? || r.TimerFired?)
    requires l' == l.(timers := l'.timers, armed := l'.armed, log := l.log + [r])
    ensures Inv(l')
  {
    forall id, p | id in l'.infos && p in Ports(l'.infos[id].d)
      ensures PortBalance(l'.log, id, l'.infos[id].d, p)
    {
      assert PortBalance(l.log, id, l.infos[id].d, p);
      OutstandingStep(l.log, r, id, p);
    }
    assert forall fd :: fd in l.epoll ==> MirrorAt(l, fd) && MirrorAt(l', fd);
  }

  lemma CommandKeepsInv(l: Loop, id: Id, m: Message)
    requires Inv(l) && m.SocketMessage? && m.fd in l.sockets && l.sockets[m.fd] == id && id in l.infos && m.fd != -1
    requires CommandLegal(l, id, m)
    ensures Inv(HandleSocket(l, m))
  {
    hide Inv, HandleClose, HandleReturn, HandleSetMask, UpdateEpoll;
    match Decode(m.data) {
      case Close =>
        if l.infos[id].d.Single? {
          CloseSingleKeepsInv(l, id, m.port, m.closeSafe, m.accepted);
        } else {
          CloseListeningKeepsInv(l, id, m.port, m.closeSafe, m.accepted);
        }
      case ReturnTokens(count) => ReturnKeepsInv(l, id, m.port, count, m.accepted);
      case SetEventMask(events) => SetMaskKeepsInv(l, id, m.port, events, m.accepted);
      case _ =>
    }
  }

  lemma MessageKeepsInv(l: Loop, m: Message)
    requires Inv(l) && MessageLegal(l, m)
    ensures Inv(HandleMessage(l, m))
  {
    match m {
      case TimerMessage(port, timeout) =>
        TimersKeepInv(l, HandleMessage(l, m), TimerSet(port, timeout));
      case ShutdownMessage =>
        assert forall fd :: fd in l.epoll ==> MirrorAt(l, fd) && MirrorAt(HandleMessage(l, m), fd);
      case SocketMessage(fd, port, data, accepted, closeSafe) =>
        if fd != -1 {
          GetKeepsInv(l, fd, IsListening(data));
          var (l1, id) := GetDescriptorInfo(l, fd, IsListening(data));
          assert HandleSocket(l, m) == HandleSocket(l1, m);
          CommandKeepsInv(l1, id, m);
        }
    }
  }

  lemma {:induction false} MessagesKeepInv(l: Loop, ms: seq<Message>)
    requires Inv(l) && MessagesLegal(l, ms)
    ensures Inv(HandleMessages(l, ms))
    decreases ms
  {
    if ms != [] {
      MessageKeepsInv(l, ms[0]);
      MessagesKeepInv(HandleMessage(l, ms[0]), ms[1..]);
    }
  }

  /** Every report still to be handled names a live descriptor that has a mask. */
  ghost predicate Deliverable(l: Loop, es: seq<Event>)
  {
    forall i :: 0 <= i < |es| && es[i].report.DescriptorReady? ==>
      && es[i].report.di in l.infos && Mask(l.infos[es[i].report.di].d) != 0
      && ListeningReportOk(l, es[i].report.di, es[i].report.events)
  }

  lemma LegalIsDeliverable(l: Loop, es: seq<Event>, now: int)
    requires Inv(l) && BatchLegal(l, es, now)
    ensures Deliverable(l, es)
  {
    forall i | 0 <= i < |es| && es[i].report.DescriptorReady?
      ensures es[i].report.di in l.infos && Mask(l.infos[es[i].report.di].d) != 0
    {
      assert Reported(l, es[i].report.di, es[i].report.events);
      var fd :| fd in l.epoll && l.epoll[fd].di == es[i].report.di;
      assert MirrorAt(l, fd);
    }
  }

  lemma EventKeepsInv(l: Loop, es: seq<Event>, now: int)
    requires Inv(l) && es != [] && Deliverable(l, es) && OncePerSource(es)
    ensures Inv(HandleEvent(l, es[0], now))
    ensures Deliverable(HandleEvent(l, es[0], now), es[1..])
  {
    hide HandleReady, UpdateEpoll, NextNotify, NotifyAll;
    match es[0].report {
      case InterruptReady =>
      case TimerReady =>
        if l.timers != [] {
          TimersKeepInv(l, HandleEvent(l, es[0], now), TimerFired(l.timers[0].value, l.timers[0].priority, now));
        } else {
          assert forall fd :: fd in l.epoll ==> MirrorAt(l, fd) && MirrorAt(HandleEvent(l, es[0], now), fd);
        }
      case DescriptorReady(id, events) =>
        ReadyKeepsInv(l, id, events, es[0].accepted);
        assert forall i :: 0 <= i < |es[1..]| ==> es[1..][i] == es[i + 1];
    }
  }

  lemma {:induction false} ReportsKeepInv(l: Loop, es: seq<Event>, now: int)
    requires Inv(l) && Deliverable(l, es) && OncePerSource(es)
    ensures Inv(HandleReports(l, es, now))
    decreases es
  {
    if es != [] {
      EventKeepsInv(l, es, now);
      assert OncePerSource(es[1..]);
      ReportsKeepInv(HandleEvent(l, es[0], now), es[1..], now);
    }
  }

  lemma RoundKeepsInv(l: Loop, r: Round)
    requires Inv(l) && RoundLegal(l, r)
    ensures Inv(HandleRound(l, r))
  {
    LegalIsDeliverable(l, r.events, r.now);
    ReportsKeepInv(l, r.events, r.now);
    if InterruptSeen(r.events) {
      MessagesKeepInv(HandleReports(l, r.events, r.now), r.messages);
    }
  }

  /**
   * In every run, whatever registrations the kernel refuses: no fault occurs, so no report names a deleted
   * descriptor, no notification goes to port 0, nothing registered is registered again and no assertion fails;
   * the map, the interest set and the credit ledger agree throughout.
   */
  lemma {:induction false} EveryRunIsSafe(l: Loop, rs: seq<Round>)
    requires Inv(l) && RunLegal(l, rs)
    ensures Inv(Poll(l, rs))
    decreases rs
  {
    if rs != [] && !l.shutdown {
      RoundKeepsInv(l, rs[0]);
      EveryRunIsSafe(HandleRound(l, rs[0]), rs[1..]);
    }
  }

  lemma StartIsSafe()
    ensures Inv(Start())
  {
  }

  /**
   * A descriptor is in the interest set only with the events of its current mask, and if nothing was refused exactly
   * then.
   */
  lemma InterestSetMirrorsMasks(l: Loop, id: Id)
    requires Inv(l) && id in l.infos
    ensures l.infos[id].fd in l.epoll ==>
              Mask(l.infos[id].d) != 0 && l.epoll[l.infos[id].fd] == Registration(id, WantedEvents(l.infos[id].d))
    ensures NoneRefused(l.log) ==> (l.infos[id].fd in l.epoll <==> Mask(l.infos[id].d) != 0)
  {
    if l.infos[id].fd in l.epoll {
      assert MirrorAt(l, l.infos[id].fd);
    }
  }

  /** A legal report tells a descriptor only about directions in its mask. */
  lemma ReportsAreWanted(l: Loop, id: Id, events: bv32)
    requires Inv(l) && Reported(l, id, events)
    ensures id in l.infos && EventMask(events) & (IN_EVENT | OUT_EVENT) & !Mask(l.infos[id].d) == 0
  {
    var fd :| fd in l.epoll && l.epoll[fd].di == id && events & !(l.epoll[fd].events | EPOLLERR | EPOLLHUP) == 0;
    assert MirrorAt(l, fd);
    OnlyWantedDirections(Mask(l.infos[id].d), events);
  }
}
