/** What holds in every run of the kqueue loop, under any kernel and any isolates. */
module KqueueProofs {
  import opened Flags
  import opened DescriptorSpec
  import opened KqueueLoop
  import K = Kqueue
  import E = EpollSpec
  import P = EpollProofs

  // ---------- what the kernel and the isolates are trusted with ----------

  ghost predicate OncePerFilter(es: seq<Report>)
  {
    forall i, j :: 0 <= i < j < |es| && es[i].Ready? && es[j].Ready? ==>
      es[i].id != es[j].id || es[i].write != es[j].write
  }

  /** A batch holds at most one event for each registration there was when it was fetched. */
  ghost predicate BatchLegal(l: Loop, es: seq<Report>)
  {
    && (forall i :: 0 <= i < |es| && es[i].Ready? ==>
          exists fd :: Key(fd, es[i].write) in l.kernel && l.kernel[Key(fd, es[i].write)] == es[i].id)
    && OncePerFilter(es)
  }

  ghost predicate CommandLegal(l: Loop, id: Id, m: E.Message)
    requires m.SocketMessage? && id in l.objects
  {
    var d := l.objects[id].d;
    match Decode(m.data)
    case ShutdownRead => d.Single?
    case ShutdownWrite => d.Single?
    case Close => if d.Single? then d.port == ILLEGAL_PORT || d.port == m.port
                  else m.closeSafe ==> Ports(d) <= {m.port}
    case ReturnTokens(count) => m.port in Ports(d) && count <= P.Outstanding(l.log, id, m.port)
    case SetEventMask(events) =>
      && m.port != ILLEGAL_PORT
      && if d.Single? then events & !(IN_EVENT | OUT_EVENT) == 0 && (d.port == ILLEGAL_PORT || d.port == m.port)
         else events == 0 || events == IN_EVENT
    case Unreachable => false
  }

  ghost predicate MessageLegal(l: Loop, m: E.Message)
  {
    m.SocketMessage? && m.fd != -1 ==>
      var (l1, id) := GetDescriptorInfo(l, m.fd, IsListening(m.data));
      (id in l1.objects ==> CommandLegal(l1, id, m))
  }

  ghost predicate MessagesLegal(l: Loop, ms: seq<E.Message>)
    decreases ms
  {
    ms == [] || (MessageLegal(l, ms[0]) && MessagesLegal(HandleMessage(l, ms[0]), ms[1..]))
  }

  ghost predicate RoundLegal(l: Loop, r: Round)
  {
    && BatchLegal(l, r.reports)
    && (Interrupt in r.reports ==> MessagesLegal(HandleReports(l, r.reports), r.messages))
  }

  ghost predicate RunLegal(l: Loop, rs: seq<Round>)
    decreases rs
  {
    rs == [] || l.shutdown || (RoundLegal(l, rs[0]) && RunLegal(HandleRound(l, rs[0]), rs[1..]))
  }

  // ---------- the invariant ----------

  /** No assertion fails, but for that on the events of listening sockets. */
  predicate Sane(l: Loop)
  {
    l.faults <= {ListeningReport}
  }

  /** What one descriptor looks like to the registration code. */
  function WatchOf(l: Loop, id: Id): (w: K.Watch)
    requires id in l.objects
  {
    var o := l.objects[id];
    K.Watch(o.d, o.tracked, K.Filters(Key(o.fd, false) in l.kernel, Key(o.fd, true) in l.kernel), Sane(l), o.refused)
  }

  ghost predicate SocketOk(l: Loop, fd: int)
  {
    fd in l.sockets ==> l.sockets[fd] in l.objects && l.objects[l.sockets[fd]].fd == fd
  }

  ghost predicate ObjectOk(l: Loop, id: Id)
  {
    id in l.objects ==> id < l.nextId && l.objects[id].fd in l.sockets && l.sockets[l.objects[id].fd] == id
  }

  /** The socket map and the live objects name each other. */
  ghost predicate Linked(l: Loop)
  {
    && (forall fd {:trigger SocketOk(l, fd)} :: SocketOk(l, fd))
    && (forall id {:trigger ObjectOk(l, id)} :: ObjectOk(l, id))
  }

  /** Every registration carries the live object of its number. */
  ghost predicate Carried(l: Loop)
  {
    forall k :: k in l.kernel ==> k.fd in l.sockets && l.kernel[k] == l.sockets[k.fd]
  }

  /** A listening socket's counters never go below zero but by broadcasts, a connected one's by one token at most. */
  function Allowance(d: Descriptor): (n: int)
  {
    if d.Single? then -1 else 0
  }

  function Slack(log: seq<E.Record>, id: Id, d: Descriptor, p: Port): (n: int)
    requires p in Ports(d)
  {
    Tokens(d, p) + P.BroadcastsTo(log, id, p)
  }

  /** A port has its initial credit less what it received and has not given back. */
  ghost predicate PortBalance(log: seq<E.Record>, id: Id, d: Descriptor, p: Port, slack: int)
    requires p in Ports(d)
  {
    Tokens(d, p) == InitialTokens(d) - P.Outstanding(log, id, p) && Slack(log, id, d, p) >= slack
  }

  ghost predicate Balanced(log: seq<E.Record>, id: Id, d: Descriptor, slack: int)
  {
    && (forall p :: p in Ports(d) ==> PortBalance(log, id, d, p, slack))
    && (d.Single? && d.port == ILLEGAL_PORT ==> d.tokens == SINGLE_TOKENS)
  }

  ghost predicate InOrder(l: Loop, id: Id)
    requires id in l.objects
  {
    K.Inv(WatchOf(l, id)) && Balanced(l.log, id, l.objects[id].d, Allowance(l.objects[id].d))
  }

  ghost predicate Inv(l: Loop)
  {
    Sane(l) && Linked(l) && Carried(l) && forall id :: id in l.objects ==> InOrder(l, id)
  }

  ghost predicate SameElsewhere(l: Loop, l': Loop, fd: int)
  {
    && (forall k: Key :: k.fd != fd ==> (k in l'.kernel <==> k in l.kernel))
    && (forall k: Key :: k.fd != fd && k in l.kernel && k in l'.kernel ==> l'.kernel[k] == l.kernel[k])
  }

  /** Only object `id` and its registrations changed. */
  ghost predicate OnlyChanged(l: Loop, l': Loop, id: Id)
  {
    && id in l.objects && id in l'.objects
    && l'.objects == l.objects[id := l'.objects[id]] && l'.objects[id].fd == l.objects[id].fd
    && SameElsewhere(l, l', l.objects[id].fd)
    && l'.sockets == l.sockets && l'.nextId == l.nextId && l'.shutdown == l.shutdown
  }

  /** The registrations a descriptor gains. */
  lemma AddedKeys(kernel: map<Key, Id>, fd: int, f: K.Filters, id: Id)
    ensures
      var r := Added(kernel, fd, f, id);
      && (forall k: Key :: k.fd != fd ==> (k in r <==> k in kernel) && (k in r ==> r[k] == kernel[k]))
      && (forall k: Key :: k in r && k.fd == fd ==> r[k] == id || (k in kernel && r[k] == kernel[k]))
      && (Key(fd, false) in r <==> Key(fd, false) in kernel || f.read)
      && (Key(fd, true) in r <==> Key(fd, true) in kernel || f.write)
  {
  }

  lemma StillLinked(l: Loop, l': Loop, id: Id)
    requires Linked(l) && OnlyChanged(l, l', id)
    ensures Linked(l')
  {
    hide SameElsewhere;
    forall fd
      ensures SocketOk(l', fd)
    {
      assert SocketOk(l, fd);
    }
    forall x
      ensures ObjectOk(l', x)
    {
      assert ObjectOk(l, x);
    }
  }

  lemma RemoveSimulates(l: Loop, id: Id)
    requires id in l.objects && Carried(l)
    ensures
      var l' := RemoveFromKqueue(l, id);
      && OnlyChanged(l, l', id) && Carried(l') && WatchOf(l', id) == K.RemoveFromKqueue(WatchOf(l, id))
      && l'.objects[id].d == l.objects[id].d
  {
    assert l.objects[id := l.objects[id]] == l.objects;
  }

  lemma AcceptSimulates(l: Loop, id: Id, f: K.Filters)
    requires id in l.objects && Carried(l) && ObjectOk(l, id)
    ensures
      var l', w := Accept(l, id, f), WatchOf(l, id);
      && OnlyChanged(l, l', id) && Carried(l')
      && WatchOf(l', id) ==
         w.(tracked := true, kernel := K.Filters(w.kernel.read || f.read, w.kernel.write || f.write))
  {
    hide Added;
    AddedKeys(l.kernel, l.objects[id].fd, f, id);
  }

  lemma RefuseSimulates(l: Loop, id: Id)
    requires id in l.objects && Carried(l)
    ensures
      var l', w := Refuse(l, id), WatchOf(l, id);
      OnlyChanged(l, l', id) && Carried(l') && WatchOf(l', id) == w.(d := NotifyAll(w.d), refused := true)
  {
    hide NotifyAll;
  }

  lemma AddSimulates(l: Loop, id: Id, accepted: bool)
    requires id in l.objects && Carried(l) && Linked(l)
    ensures
      var l' := AddToKqueue(l, id, accepted);
      && OnlyChanged(l, l', id) && Carried(l') && WatchOf(l', id) == K.AddToKqueue(WatchOf(l, id), accepted)
  {
    hide Mask, NotifyAll, K.FiltersOf, Carried, Linked, OnlyChanged, Accept, Refuse, Sane, Check;
    var o := l.objects[id];
    var f := K.FiltersOf(Mask(o.d));
    var l0 := Check(l, !o.tracked, AlreadyTracked);
    var l1 := Check(l0, f.read || f.write, NothingToRegister);
    Checked(l, !o.tracked, AlreadyTracked, id);
    Checked(l0, f.read || f.write, NothingToRegister, id);
    OnlyChangedTwice(l, l0, l1, id);
    Unlink(l1, id);
    AcceptSimulates(l1, id, f);
    RefuseSimulates(l1, id);
    OnlyChangedTwice(l, l1, AddToKqueue(l, id, accepted), id);
  }

  lemma OnlyChangedTwice(l: Loop, m: Loop, r: Loop, id: Id)
    requires OnlyChanged(l, m, id) && OnlyChanged(m, r, id)
    ensures OnlyChanged(l, r, id)
  {
  }

  /** Seen from one descriptor, the loop's registration step is the registration step of that descriptor. */
  lemma UpdateSimulates(l: Loop, oldMask: Events, id: Id, accepted: bool)
    requires id in l.objects && Linked(l) && Carried(l)
    ensures
      var l' := Update(l, oldMask, id, accepted);
      && OnlyChanged(l, l', id) && Linked(l') && Carried(l')
      && WatchOf(l', id) == K.Update(WatchOf(l, id), oldMask, accepted)
  {
    hide Mask, NotifyAll, Carried, Linked, RemoveFromKqueue, AddToKqueue, K.RemoveFromKqueue, K.AddToKqueue,
         SameElsewhere;
    var newMask := Mask(l.objects[id].d);
    if oldMask != 0 && newMask == 0 {
      RemoveSimulates(l, id);
    } else if oldMask == 0 && newMask != 0 {
      AddSimulates(l, id, accepted);
    } else if oldMask != 0 && newMask != 0 && oldMask != newMask {
      var l0 := Check(l, l.objects[id].d.Single?, ListeningMaskChange);
      var l1 := RemoveFromKqueue(l0, id);
      Checked(l, l.objects[id].d.Single?, ListeningMaskChange, id);
      RemoveSimulates(l0, id);
      StillLinked(l0, l1, id);
      AddSimulates(l1, id, accepted);
      OnlyChangedTwice(l, l0, l1, id);
      OnlyChangedTwice(l, l1, AddToKqueue(l1, id, accepted), id);
    } else {
      Checked(l, true, ListeningMaskChange, id);
    }
    StillLinked(l, Update(l, oldMask, id, accepted), id);
  }

  lemma Unlink(l: Loop, id: Id)
    requires Linked(l)
    ensures ObjectOk(l, id)
  {
  }

  lemma Checked(l: Loop, condition: bool, f: Fault, id: Id)
    requires f != ListeningReport && id in l.objects && Linked(l) && Carried(l)
    ensures
      var r := Check(l, condition, f);
      && OnlyChanged(l, r, id) && Carried(r) && Linked(r) && r.objects == l.objects
      && WatchOf(r, id) == WatchOf(l, id).(sound := Sane(l) && condition)
  {
    var r := Check(l, condition, f);
    assert l.objects[id := l.objects[id]] == l.objects;
    StillLinked(l, r, id);
  }

  /** Another descriptor looks the same, as it has another number. */
  lemma OthersLookTheSame(l: Loop, l': Loop, id: Id, x: Id)
    requires Linked(l) && OnlyChanged(l, l', id) && x in l.objects && x != id && (Sane(l) <==> Sane(l'))
    ensures x in l'.objects && WatchOf(l', x) == WatchOf(l, x)
  {
    assert ObjectOk(l, x) && ObjectOk(l, id);
    hide Linked;
  }

  // ---------- the ledger ----------

  /** The records added are about one descriptor. */
  ghost predicate OnlyLogged(l: Loop, l': Loop, id: Id)
  {
    exists rs :: l'.log == l.log + rs && forall r :: r in rs ==> P.About(r, id)
  }

  lemma LoggedTwice(l: Loop, m: Loop, r: Loop, id: Id)
    requires OnlyLogged(l, m, id) && OnlyLogged(m, r, id)
    ensures OnlyLogged(l, r, id)
  {
    var a :| m.log == l.log + a && forall x :: x in a ==> P.About(x, id);
    var b :| r.log == m.log + b && forall x :: x in b ==> P.About(x, id);
    assert r.log == l.log + (a + b);
  }

  lemma LoggedBy(l: Loop, l': Loop, id: Id, rs: seq<E.Record>)
    requires l'.log == l.log + rs && forall r :: r in rs ==> P.About(r, id)
    ensures OnlyLogged(l, l', id)
  {
  }

  /** The others' balances are as before. */
  lemma OthersKeepBalance(l: Loop, l': Loop, id: Id, x: Id, d: Descriptor, slack: int)
    requires OnlyLogged(l, l', id) && x != id && Balanced(l.log, x, d, slack)
    ensures Balanced(l'.log, x, d, slack)
  {
    hide P.Outstanding, P.BroadcastsTo;
    var rs :| l'.log == l.log + rs && forall r :: r in rs ==> P.About(r, id);
    forall p | p in Ports(d)
      ensures PortBalance(l'.log, x, d, p, slack)
    {
      assert PortBalance(l.log, x, d, p, slack);
      P.OutstandingOfOthers(l.log, rs, id, x, p);
    }
  }

  /** A broadcast takes a token from each port and counts as one. */
  lemma BroadcastBalance(log: seq<E.Record>, id: Id, d: Descriptor, events: Events, slack: int)
    requires Valid(d) && Balanced(log, id, d, slack) && (d.Single? ==> d.port != ILLEGAL_PORT)
    ensures Balanced(log + [E.Broadcast(id, Ports(d), events)], id, NotifyAll(d), slack)
  {
    NotifyAllValid(d);
    forall p | p in Ports(d)
      ensures PortBalance(log + [E.Broadcast(id, Ports(d), events)], id, NotifyAll(d), p, slack)
    {
      assert PortBalance(log, id, d, p, slack);
      P.OutstandingStep(log, E.Broadcast(id, Ports(d), events), id, p);
    }
  }

  /** The descriptor and the ledger stay as they are, or a refusal was broadcast; and which assertions failed. */
  ghost predicate Recorded(l: Loop, l': Loop, id: Id)
    requires id in l.objects && id in l'.objects
  {
    var d := l.objects[id].d;
    && l.faults <= l'.faults && (ListeningReport in l'.faults ==> ListeningReport in l.faults)
    && (|| (l'.log == l.log && l'.objects[id].d == d)
        || (&& l'.log == l.log + [E.Broadcast(id, Ports(d), CLOSE_EVENT)] && l'.objects[id].d == NotifyAll(d)
            && Mask(d) != 0))
  }

  lemma RemoveRecords(l: Loop, id: Id)
    requires id in l.objects
    ensures
      var l' := RemoveFromKqueue(l, id);
      l'.log == l.log && l'.faults == l.faults && l'.objects[id].d == l.objects[id].d
  {
  }

  lemma AddRecords(l: Loop, id: Id, accepted: bool)
    requires id in l.objects && Mask(l.objects[id].d) != 0
    ensures Recorded(l, AddToKqueue(l, id, accepted), id)
  {
    hide Mask, NotifyAll, Added, K.FiltersOf;
  }

  lemma UpdateRecords(l: Loop, oldMask: Events, id: Id, accepted: bool)
    requires id in l.objects
    ensures Recorded(l, Update(l, oldMask, id, accepted), id)
  {
    hide Mask, NotifyAll, RemoveFromKqueue, AddToKqueue;
    var d := l.objects[id].d;
    var l0 := Check(l, d.Single?, ListeningMaskChange);
    RemoveRecords(l, id);
    RemoveRecords(l0, id);
    if Mask(d) != 0 {
      AddRecords(l, id, accepted);
      AddRecords(RemoveFromKqueue(l0, id), id, accepted);
    }
  }

  /** So it keeps the balance. */
  lemma UpdateBalance(l: Loop, oldMask: Events, id: Id, accepted: bool, slack: int)
    requires id in l.objects && Valid(l.objects[id].d) && Balanced(l.log, id, l.objects[id].d, slack)
    ensures
      var l' := Update(l, oldMask, id, accepted);
      OnlyLogged(l, l', id) && Balanced(l'.log, id, l'.objects[id].d, slack)
  {
    hide Balanced, NotifyAll, Update, OnlyLogged;
    var d, l' := l.objects[id].d, Update(l, oldMask, id, accepted);
    UpdateRecords(l, oldMask, id, accepted);
    if l'.log == l.log && l'.objects[id].d == d {
      assert l.log + [] == l.log;
      LoggedBy(l, l', id, []);
    } else {
      LoggedBy(l, l', id, [E.Broadcast(id, Ports(d), CLOSE_EVENT)]);
      BroadcastBalance(l.log, id, d, CLOSE_EVENT, slack);
    }
  }

  // ---------- one change of one descriptor ----------

  lemma ChangedOnly(l: Loop, id: Id, d: Descriptor, rs: seq<E.Record>)
    requires id in l.objects && Linked(l) && Carried(l)
    ensures
      var l1 := Logged(SetDescriptor(l, id, d), rs);
      OnlyChanged(l, l1, id) && Carried(l1) && Linked(l1) && WatchOf(l1, id) == WatchOf(l, id).(d := d)
  {
    StillLinked(l, Logged(SetDescriptor(l, id, d), rs), id);
  }

  /** A change of one descriptor, with its records, followed by the registration step. */
  lemma ChangeKeepsInv(l: Loop, d: Descriptor, rs: seq<E.Record>, oldMask: Events, id: Id, accepted: bool, slack: int)
    requires Inv(l) && id in l.objects && slack >= Allowance(d) && d.Single? == l.objects[id].d.Single?
    requires K.Inv(K.Update(WatchOf(l, id).(d := d), oldMask, accepted)) && Valid(d)
    requires (forall r :: r in rs ==> P.About(r, id)) && Balanced(l.log + rs, id, d, slack)
    ensures
      var l' := Update(Logged(SetDescriptor(l, id, d), rs), oldMask, id, accepted);
      && Inv(l') && OnlyChanged(l, l', id) && OnlyLogged(l, l', id) && l'.faults == l.faults
      && WatchOf(l', id) == K.Update(WatchOf(l, id).(d := d), oldMask, accepted)
      && Balanced(l'.log, id, l'.objects[id].d, slack)
  {
    hide K.Update, Update, K.Inv, Linked, Carried, OnlyChanged, Balanced, OnlyLogged, Allowance, Valid;
    var l1 := Logged(SetDescriptor(l, id, d), rs);
    var l' := Update(l1, oldMask, id, accepted);
    ChangedOnly(l, id, d, rs);
    LoggedBy(l, l1, id, rs);
    UpdateSimulates(l1, oldMask, id, accepted);
    UpdateBalance(l1, oldMask, id, accepted, slack);
    OnlyChangedTwice(l, l1, l', id);
    LoggedTwice(l, l1, l', id);
    assert l'.objects[id].d.Single? == d.Single? by { UpdateKeepsKind(l1, oldMask, id, accepted); }
    SameAllowance(d, l'.objects[id].d);
    AllInOrder(l, l', id, slack);
    UpdateRecords(l1, oldMask, id, accepted);
  }

  lemma UpdateKeepsKind(l: Loop, oldMask: Events, id: Id, accepted: bool)
    requires id in l.objects
    ensures Update(l, oldMask, id, accepted).objects[id].d.Single? == l.objects[id].d.Single?
  {
    hide Update, Mask;
    UpdateRecords(l, oldMask, id, accepted);
  }

  lemma SameAllowance(d: Descriptor, d': Descriptor)
    requires d.Single? == d'.Single?
    ensures Allowance(d) == Allowance(d')
  {
  }

  lemma AllInOrder(l: Loop, l': Loop, id: Id, slack: int)
    requires Inv(l) && Linked(l') && Carried(l') && OnlyChanged(l, l', id) && OnlyLogged(l, l', id)
    requires K.Inv(WatchOf(l', id)) && Balanced(l'.log, id, l'.objects[id].d, slack)
    requires slack >= Allowance(l'.objects[id].d)
    ensures Inv(l')
  {
    hide K.Inv, Linked, Carried, SameElsewhere, OnlyLogged, Allowance;
    Sound(WatchOf(l', id));
    forall x | x in l'.objects
      ensures InOrder(l', x)
    {
      if x == id {
        Relaxed(l'.log, id, l'.objects[id].d, slack, Allowance(l'.objects[id].d));
      } else {
        assert InOrder(l, x);
        hide Balanced;
        OthersLookTheSame(l, l', id, x);
        OthersKeepBalance(l, l', id, x, l.objects[x].d, Allowance(l.objects[x].d));
      }
    }
  }

  lemma Relaxed(log: seq<E.Record>, id: Id, d: Descriptor, slack: int, slack': int)
    requires Balanced(log, id, d, slack) && slack >= slack'
    ensures Balanced(log, id, d, slack')
  {
    hide P.Outstanding, P.BroadcastsTo;
    assert forall p :: p in Ports(d) ==> PortBalance(log, id, d, p, slack);
  }

  lemma Sound(w: K.Watch)
    requires K.Inv(w)
    ensures w.sound
  {
  }

  // ---------- a batch of events ----------

  /** A close is reported for a listening socket. */
  ghost predicate ClosesListening(l: Loop, e: Report)
  {
    e.Ready? && e.id in l.objects && l.objects[e.id].d.Multiple? && !e.write && e.eof && !e.error
  }

  /** The assertion of the listening sockets fails; all else is as before. */
  lemma ListeningKeepsInv(l: Loop, closes: bool)
    requires Inv(l)
    ensures Inv(Check(l, !closes, ListeningReport))
  {
    hide K.Inv, Balanced;
    var l' := Check(l, !closes, ListeningReport);
    assert forall fd :: SocketOk(l, fd) ==> SocketOk(l', fd);
    assert forall id :: ObjectOk(l, id) ==> ObjectOk(l', id);
    assert forall id :: id in l'.objects ==> InOrder(l, id) && WatchOf(l', id) == WatchOf(l, id);
  }

  lemma NotifyBalance(log: seq<E.Record>, id: Id, d: Descriptor, events: Events, slack: int)
    requires Valid(d) && K.Notifiable(d) && Balanced(log, id, d, slack) && (d.Multiple? ==> slack >= 0)
    ensures
      var (d', port) := NextNotify(d);
      Balanced(log + [E.Notified(id, port, events)], id, d', if d.Single? then slack - 1 else 0)
  {
    var (d', port) := NextNotify(d);
    if d.Multiple? {
      NextNotifyValid(d);
    }
    forall p | p in Ports(d')
      ensures PortBalance(log + [E.Notified(id, port, events)], id, d', p, if d.Single? then slack - 1 else 0)
    {
      assert PortBalance(log, id, d, p, slack);
      P.OutstandingStep(log, E.Notified(id, port, events), id, p);
    }
  }

  function EventOf(e: Report): (k: K.KEvent)
    requires e.Ready?
  {
    K.KEvent(e.write, e.eof && e.error, e.accepted)
  }

  /** What an event does to a descriptor and the ledger before the registration step. */
  ghost function Served(d: Descriptor, e: Report): (r: (Descriptor, seq<E.Record>))
    requires e.Ready?
  {
    var mask := GetEvents(d.Multiple?, e.write, e.eof, e.error);
    if e.eof && e.error then (NotifyAll(d), [E.Broadcast(e.id, Ports(d), mask)])
    else (NextNotify(d).0, [E.Notified(e.id, NextNotify(d).1, mask)])
  }

  lemma ServedBalance(log: seq<E.Record>, d: Descriptor, e: Report, slack: int)
    requires e.Ready? && Valid(d) && K.Notifiable(d) && Balanced(log, e.id, d, slack) && (d.Multiple? ==> slack >= 0)
    ensures
      var (d', rs) := Served(d, e);
      && Balanced(log + rs, e.id, d', if d.Single? then slack - 1 else 0) && d'.Single? == d.Single?
      && forall r :: r in rs ==> P.About(r, e.id)
  {
    var mask := GetEvents(d.Multiple?, e.write, e.eof, e.error);
    hide Balanced, GetEvents, NotifyAll, NextNotify;
    var (d', rs) := Served(d, e);
    if e.eof && e.error {
      BroadcastBalance(log, e.id, d, mask, slack);
      Relaxed(log + rs, e.id, d', slack, if d.Single? then slack - 1 else 0);
    } else {
      NotifyBalance(log, e.id, d, mask, slack);
    }
    SameKind(d);
  }

  lemma SameKind(d: Descriptor)
    ensures NotifyAll(d).Single? == d.Single? && NextNotify(d).0.Single? == d.Single?
  {
  }

  lemma HandleReadyIs(l: Loop, e: Report)
    requires e.Ready? && e.id in l.objects && (l.objects[e.id].d.Multiple? ==> !e.write)
    requires NextNotify(l.objects[e.id].d).1 != ILLEGAL_PORT
    ensures
      var d := l.objects[e.id].d;
      var l1, (d', rs) := Check(l, !ClosesListening(l, e), ListeningReport), Served(d, e);
      HandleReady(l, e) == Update(Logged(SetDescriptor(l1, e.id, d'), rs), Mask(d), e.id, e.accepted)
  {
    hide NextNotify, NotifyAll, Update, Mask;
  }

  /** One event on a live descriptor that has a port for it. */
  lemma ReadyKeepsInv(l: Loop, e: Report, slack: int)
    requires Inv(l) && e.Ready? && e.id in l.objects && K.Notifiable(l.objects[e.id].d)
    requires l.objects[e.id].d.Multiple? ==> !e.write
    requires slack >= 0 && Balanced(l.log, e.id, l.objects[e.id].d, slack)
    ensures
      var l' := HandleReady(l, e);
      && Inv(l') && OnlyChanged(l, l', e.id) && OnlyLogged(l, l', e.id)
      && WatchOf(l', e.id) == K.HandleEvent(WatchOf(l, e.id), EventOf(e))
      && l'.faults == l.faults + (if ClosesListening(l, e) then {ListeningReport} else {})
      && (l.objects[e.id].d.Single? ==>
            && l'.objects[e.id].d.Single? && K.Notifiable(l'.objects[e.id].d)
            && Balanced(l'.log, e.id, l'.objects[e.id].d, slack - 1))
  {
    assert InOrder(l, e.id);
    var w, d := WatchOf(l, e.id), l.objects[e.id].d;
    K.EventKeepsInv(w, EventOf(e));
    K.EventIsSound(w);
    ListeningKeepsInv(l, ClosesListening(l, e));
    ServedBalance(l.log, d, e, slack);
    HandleReadyIs(l, e);
    ServedValid(d, e);
    var l1 := Check(l, !ClosesListening(l, e), ListeningReport);
    var (d', rs) := Served(d, e);
    assert K.HandleEvent(w, EventOf(e)) == K.Update(w.(d := d'), Mask(d), e.accepted) && WatchOf(l1, e.id) == w;
    hide Inv, K.Inv, K.Update, Update, Mask, Served, Balanced, K.Notifiable, K.HandleEvent, Valid, SameElsewhere,
         OnlyLogged;
    ChangeKeepsInv(l1, d', rs, Mask(d), e.id, e.accepted, if d.Single? then slack - 1 else 0);
    SameLedger(l, l1, HandleReady(l, e), e.id);
  }

  lemma SameLedger(l: Loop, l1: Loop, l': Loop, id: Id)
    requires l1 == l.(faults := l1.faults) && OnlyChanged(l1, l', id) && OnlyLogged(l1, l', id)
    ensures OnlyChanged(l, l', id) && OnlyLogged(l, l', id)
  {
  }

  lemma ServedValid(d: Descriptor, e: Report)
    requires e.Ready? && Valid(d) && K.Notifiable(d)
    ensures Valid(Served(d, e).0)
  {
    hide GetEvents;
    NotifyAllValid(d);
    if d.Multiple? {
      NextNotifyValid(d);
    }
  }

  /** A later event of the batch is for the same descriptor. */
  ghost predicate Again(es: seq<Report>, i: nat)
    requires i < |es| && es[i].Ready?
  {
    exists j :: i < j < |es| && es[j].Ready? && es[j].id == es[i].id
  }

  /**
   * The event finds a live descriptor with a port for it. A listening socket has no other event in the batch; a
   * connected one may, and then has a token for this one.
   */
  ghost predicate DeliverableAt(l: Loop, es: seq<Report>, i: nat)
    requires i < |es| && es[i].Ready?
  {
    && es[i].id in l.objects && K.Notifiable(l.objects[es[i].id].d)
    && (l.objects[es[i].id].d.Multiple? ==> !es[i].write && !Again(es, i))
    && (l.objects[es[i].id].d.Single? ==>
          Balanced(l.log, es[i].id, l.objects[es[i].id].d, if Again(es, i) then 1 else 0))
  }

  ghost predicate Deliverable(l: Loop, es: seq<Report>)
  {
    OncePerFilter(es) && forall i :: 0 <= i < |es| && es[i].Ready? ==> DeliverableAt(l, es, i)
  }

  /** A registration belongs to a live descriptor that wants its filter and has tokens. */
  lemma RegisteredIsLive(l: Loop, k: Key)
    requires Inv(l) && k in l.kernel
    ensures
      var id := l.kernel[k];
      && id in l.objects && l.objects[id].fd == k.fd && K.Notifiable(l.objects[id].d)
      && (l.objects[id].d.Multiple? ==> !k.write)
      && (l.objects[id].d.Single? ==> Balanced(l.log, id, l.objects[id].d, 1))
  {
    assert SocketOk(l, k.fd);
    var id := l.kernel[k];
    assert InOrder(l, id);
    hide Linked, Carried, P.Outstanding, P.BroadcastsTo;
    K.MaskWanted(l.objects[id].d);
    var d := l.objects[id].d;
    assert forall p :: p in Ports(d) ==> PortBalance(l.log, id, d, p, Allowance(d));
  }

  lemma LegalIsDeliverable(l: Loop, es: seq<Report>)
    requires Inv(l) && BatchLegal(l, es)
    ensures Deliverable(l, es)
  {
    hide Inv, K.Notifiable, Balanced;
    forall i | 0 <= i < |es| && es[i].Ready?
      ensures DeliverableAt(l, es, i)
    {
      var id := es[i].id;
      var fd :| Key(fd, es[i].write) in l.kernel && l.kernel[Key(fd, es[i].write)] == id;
      RegisteredIsLive(l, Key(fd, es[i].write));
      if l.objects[id].d.Single? {
        Relaxed(l.log, id, l.objects[id].d, 1, if Again(es, i) then 1 else 0);
      } else if Again(es, i) {
        var j :| i < j < |es| && es[j].Ready? && es[j].id == id;
        var fd' :| Key(fd', es[j].write) in l.kernel && l.kernel[Key(fd', es[j].write)] == id;
        RegisteredIsLive(l, Key(fd', es[j].write));
      }
    }
  }

  /** There are only two filters, so at most two events. */
  lemma AtMostTwice(es: seq<Report>, i: nat)
    requires OncePerFilter(es) && 0 < i < |es| && es[0].Ready? && es[i].Ready? && es[i].id == es[0].id
    ensures Again(es, 0) && !Again(es, i)
  {
  }

  lemma Later(es: seq<Report>, i: nat)
    requires OncePerFilter(es) && i + 1 < |es| && es[i + 1].Ready?
    ensures OncePerFilter(es[1..]) && es[1..][i] == es[i + 1] && (Again(es[1..], i) <==> Again(es, i + 1))
  {
    assert forall j :: 0 <= j < |es[1..]| ==> es[1..][j] == es[j + 1];
    if Again(es, i + 1) {
      var j :| i + 1 < j < |es| && es[j].Ready? && es[j].id == es[i + 1].id;
      assert es[1..][j - 1] == es[j];
    }
  }

  /** Handling one event leaves the others deliverable, also a second one of the same descriptor. */
  lemma OthersStayDeliverable(l: Loop, es: seq<Report>)
    requires es != [] && es[0].Ready? && Inv(l) && Deliverable(l, es)
    ensures Inv(HandleReady(l, es[0])) && Deliverable(HandleReady(l, es[0]), es[1..])
    ensures HandleReady(l, es[0]).shutdown == l.shutdown
    ensures HandleReady(l, es[0]).faults == l.faults + (if ClosesListening(l, es[0]) then {ListeningReport} else {})
  {
    hide Inv, HandleReady, K.Notifiable, Balanced, OncePerFilter, Again, SameElsewhere, OnlyLogged, ClosesListening;
    assert DeliverableAt(l, es, 0);
    var slack := if l.objects[es[0].id].d.Single? && Again(es, 0) then 1 else 0;
    assert Balanced(l.log, es[0].id, l.objects[es[0].id].d, slack) by {
      if l.objects[es[0].id].d.Multiple? {
        ListeningBalance(l, es[0].id);
      }
    }
    ReadyKeepsInv(l, es[0], slack);
    FewerEvents(es);
    forall i | 0 <= i < |es[1..]| && es[1..][i].Ready?
      ensures DeliverableAt(HandleReady(l, es[0]), es[1..], i)
    {
      Later(es, i);
      assert DeliverableAt(l, es, i + 1);
      var id := es[i + 1].id;
      if id == es[0].id {
        AtMostTwice(es, i + 1);
      } else if l.objects[id].d.Single? {
        OthersKeepBalance(l, HandleReady(l, es[0]), es[0].id, id, l.objects[id].d, if Again(es, i + 1) then 1 else 0);
      }
    }
  }

  lemma FewerEvents(es: seq<Report>)
    requires OncePerFilter(es) && es != []
    ensures OncePerFilter(es[1..])
  {
  }

  lemma ListeningBalance(l: Loop, id: Id)
    requires Inv(l) && id in l.objects && l.objects[id].d.Multiple?
    ensures Balanced(l.log, id, l.objects[id].d, 0)
  {
    hide K.Inv, Linked, Carried, Balanced;
    assert InOrder(l, id);
  }

  lemma InterruptStaysDeliverable(l: Loop, es: seq<Report>)
    requires es != [] && es[0].Interrupt? && Deliverable(l, es)
    ensures Deliverable(l, es[1..])
  {
    hide K.Notifiable, Balanced, Again;
    forall i | 0 <= i < |es[1..]| && es[1..][i].Ready?
      ensures DeliverableAt(l, es[1..], i)
    {
      Later(es, i);
      assert DeliverableAt(l, es, i + 1);
    }
  }

  /** A close of a listening socket is reported when its turn comes. */
  ghost predicate ReportsClose(l: Loop, es: seq<Report>)
    decreases es
  {
    es != [] &&
    if es[0].Interrupt? then ReportsClose(l, es[1..])
    else ClosesListening(l, es[0]) || ReportsClose(HandleReady(l, es[0]), es[1..])
  }

  lemma {:induction false} ReportsKeepInv(l: Loop, es: seq<Report>)
    requires Inv(l) && Deliverable(l, es)
    ensures
      var l' := HandleReports(l, es);
      && Inv(l') && l'.shutdown == l.shutdown
      && l'.faults == l.faults + (if ReportsClose(l, es) then {ListeningReport} else {})
    decreases es
  {
    hide Inv, HandleReady, Deliverable, ClosesListening;
    if es != [] {
      if es[0].Ready? {
        OthersStayDeliverable(l, es);
        ReportsKeepInv(HandleReady(l, es[0]), es[1..]);
      } else {
        InterruptStaysDeliverable(l, es);
        ReportsKeepInv(l, es[1..]);
      }
    }
  }

  /** When the turn of an event comes, the object it carries is alive: no event of a batch deletes one. */
  lemma {:induction false} EveryEventIsLive(l: Loop, es: seq<Report>, k: nat)
    requires Inv(l) && Deliverable(l, es) && k < |es| && es[k].Ready?
    ensures
      var now := HandleReports(l, es[..k]);
      es[k].id in now.objects && K.Notifiable(now.objects[es[k].id].d)
    decreases es
  {
    if k == 0 {
      assert DeliverableAt(l, es, 0);
    } else {
      assert es[..k][0] == es[0] && es[..k][1..] == es[1..][..k - 1] && es[1..][k - 1] == es[k];
      hide Inv, HandleReady, K.Notifiable, Deliverable;
      if es[0].Ready? {
        OthersStayDeliverable(l, es);
        EveryEventIsLive(HandleReady(l, es[0]), es[1..], k - 1);
      } else {
        InterruptStaysDeliverable(l, es);
        EveryEventIsLive(l, es[1..], k - 1);
      }
    }
  }

  // ---------- messages ----------

  lemma NewKeepsInv(l: Loop, fd: int, listening: bool)
    requires Inv(l) && fd !in l.sockets
    ensures Inv(GetDescriptorInfo(l, fd, listening).0)
  {
    var (l1, id) := GetDescriptorInfo(l, fd, listening);
    assert ObjectOk(l, id);
    forall x
      ensures SocketOk(l1, x)
    {
      assert SocketOk(l, x);
    }
    forall x
      ensures ObjectOk(l1, x)
    {
      assert ObjectOk(l, x);
    }
    hide Linked;
    assert Key(fd, false) !in l.kernel && Key(fd, true) !in l.kernel;
    assert WatchOf(l1, id) == K.NewWatch(listening).(sound := Sane(l));
    hide K.Inv;
    forall x | x in l1.objects
      ensures InOrder(l1, x)
    {
      if x != id {
        assert InOrder(l, x) && WatchOf(l1, x) == WatchOf(l, x);
      }
    }
  }

  lemma GetKeepsInv(l: Loop, fd: int, listening: bool)
    requires Inv(l)
    ensures
      var (l1, id) := GetDescriptorInfo(l, fd, listening);
      && Inv(l1) && id in l1.objects && l1.objects[id].fd == fd
      && l1.faults == l.faults && l1.shutdown == l.shutdown && l1.log == l.log
  {
    hide K.Inv, Balanced;
    if fd in l.sockets {
      assert SocketOk(l, fd);
    } else {
      NewKeepsInv(l, fd, listening);
    }
  }

  lemma SetBalance(log: seq<E.Record>, id: Id, d: Descriptor, port: Port, events: Events)
    requires Balanced(log, id, d, Allowance(d)) && port != ILLEGAL_PORT
    requires d.Single? ==> d.port == ILLEGAL_PORT || d.port == port
    ensures
      var rs := if port in Ports(d) then [] else [E.Attached(id, port)];
      Balanced(log + rs, id, SetPortAndMask(d, port, events), Allowance(d))
  {
    var d' := SetPortAndMask(d, port, events);
    if port in Ports(d) {
      assert log + [] == log;
      assert forall p :: p in Ports(d') ==>
          PortBalance(log, id, d, p, Allowance(d)) && PortBalance(log, id, d', p, Allowance(d));
    } else {
      forall p | p in Ports(d')
        ensures PortBalance(log + [E.Attached(id, port)], id, d', p, Allowance(d))
      {
        assert p in Ports(d) ==> PortBalance(log, id, d, p, Allowance(d));
        P.OutstandingStep(log, E.Attached(id, port), id, p);
      }
    }
  }

  lemma ReturnBalance(log: seq<E.Record>, id: Id, d: Descriptor, port: Port, count: nat)
    requires Balanced(log, id, d, Allowance(d)) && port in Ports(d) && count <= P.Outstanding(log, id, port)
    ensures
      var d' := ReturnTokensTo(d, port, count);
      && Balanced(log + [E.Returned(id, port, count)], id, d', Allowance(d))
      && NotOverfull(d', port)
  {
    hide P.Outstanding, P.BroadcastsTo;
    var d' := ReturnTokensTo(d, port, count);
    assert PortBalance(log, id, d, port, Allowance(d));
    forall p | p in Ports(d')
      ensures PortBalance(log + [E.Returned(id, port, count)], id, d', p, Allowance(d))
    {
      assert PortBalance(log, id, d, p, Allowance(d));
      P.OutstandingStep(log, E.Returned(id, port, count), id, p);
    }
  }

  lemma RemoveBalance(log: seq<E.Record>, id: Id, d: Descriptor, port: Port)
    requires d.Multiple? && Balanced(log, id, d, 0)
    ensures Balanced(log, id, RemovePort(d, port), 0)
  {
    var d' := RemovePort(d, port);
    assert forall p :: p in Ports(d') ==> PortBalance(log, id, d, p, 0) && PortBalance(log, id, d', p, 0);
  }

  /** A command's change of a descriptor, with its records. */
  lemma CommandedKeepsInv(l: Loop, id: Id, c: K.Command, rs: seq<E.Record>, accepted: bool)
    requires Inv(l) && id in l.objects && K.RoundLegal(WatchOf(l, id), K.Message(c, accepted))
    requires forall r :: r in rs ==> P.About(r, id)
    requires var d := l.objects[id].d; Balanced(l.log + rs, id, K.Commanded(d, c), Allowance(d))
    ensures
      var d := l.objects[id].d;
      var l' := Update(Logged(SetDescriptor(l, id, K.Commanded(d, c)), rs), Mask(d), id, accepted);
      Inv(l') && OnlyChanged(l, l', id) && l'.faults == l.faults
  {
    assert InOrder(l, id);
    var w, d := WatchOf(l, id), l.objects[id].d;
    K.CommandKeepsInv(w, c, accepted);
    K.CommandWanted(d, c);
    var d' := K.Commanded(d, c);
    assert K.Step(w, K.Message(c, accepted)) == K.Update(w.(d := d'), Mask(d), accepted);
    SameAllowance(d, d');
    hide Inv, K.Inv, K.Update, Update, Mask, Balanced, K.Commanded, Allowance;
    ChangeKeepsInv(l, d', rs, Mask(d), id, accepted, Allowance(d));
  }

  lemma EventsFit(events: Events)
    requires events & !(IN_EVENT | OUT_EVENT) == 0
    ensures events <= IN_EVENT | OUT_EVENT
  {
  }

  lemma SetMaskKeepsInv(l: Loop, id: Id, port: Port, events: Events, accepted: bool)
    requires Inv(l) && id in l.objects && port != ILLEGAL_PORT && events & !(IN_EVENT | OUT_EVENT) == 0
    requires var d := l.objects[id].d;
             if d.Single? then d.port == ILLEGAL_PORT || d.port == port else events == 0 || events == IN_EVENT
    ensures
      var l' := HandleSetMask(l, id, port, events, accepted);
      Inv(l') && l'.faults == l.faults && l'.shutdown == l.shutdown
  {
    assert InOrder(l, id);
    hide Inv, Update, SetPortAndMask, Balanced;
    var d := l.objects[id].d;
    var rs := if port in Ports(d) then [] else [E.Attached(id, port)];
    EventsFit(events);
    SetBalance(l.log, id, d, port, events);
    CommandedKeepsInv(l, id, K.SetMask(port, events), rs, accepted);
  }

  lemma ReturnIs(l: Loop, id: Id, port: Port, count: nat, accepted: bool)
    requires id in l.objects && port in Ports(l.objects[id].d)
    requires NotOverfull(ReturnTokensTo(l.objects[id].d, port, count), port)
    ensures
      var d := l.objects[id].d;
      HandleReturn(l, id, port, count, accepted) ==
      Update(Logged(SetDescriptor(l, id, K.Commanded(d, K.Return(port, count))), [E.Returned(id, port, count)]),
             Mask(d), id, accepted)
  {
    hide Update, ReturnTokensTo, Mask;
  }

  lemma ReturnKeepsInv(l: Loop, id: Id, port: Port, count: nat, accepted: bool)
    requires Inv(l) && id in l.objects && port in Ports(l.objects[id].d) && count <= P.Outstanding(l.log, id, port)
    ensures
      var l' := HandleReturn(l, id, port, count, accepted);
      Inv(l') && l'.faults == l.faults && l'.shutdown == l.shutdown
  {
    assert InOrder(l, id);
    var d := l.objects[id].d;
    hide Inv, Update, ReturnTokensTo, Balanced, P.Outstanding, Allowance, InOrder, K.Inv, Mask;
    ReturnBalance(l.log, id, d, port, count);
    ReturnIs(l, id, port, count, accepted);
    CommandedKeepsInv(l, id, K.Return(port, count), [E.Returned(id, port, count)], accepted);
  }

  lemma DestroyedKeepsInv(l: Loop, port: Port)
    requires Inv(l)
    ensures Inv(Logged(l, [E.Destroyed(port)]))
  {
    var l' := Logged(l, [E.Destroyed(port)]);
    assert forall fd :: SocketOk(l, fd) ==> SocketOk(l', fd);
    assert forall id :: ObjectOk(l, id) ==> ObjectOk(l', id);
    hide Linked, K.Inv, P.Outstanding, P.BroadcastsTo;
    forall id | id in l'.objects
      ensures InOrder(l', id)
    {
      assert InOrder(l, id) && WatchOf(l', id) == WatchOf(l, id);
      var d := l.objects[id].d;
      forall p | p in Ports(d)
        ensures PortBalance(l'.log, id, d, p, Allowance(d))
      {
        assert PortBalance(l.log, id, d, p, Allowance(d));
        P.OutstandingStep(l.log, E.Destroyed(port), id, p);
      }
    }
  }

  /** An object without a mask has no registration left, so it can be deleted and its number used again. */
  lemma DeleteKeepsInv(l: Loop, l2: Loop, id: Id)
    requires Inv(l) && Linked(l2) && Carried(l2) && OnlyChanged(l, l2, id) && l2.log == l.log && l2.faults == l.faults
    requires K.Inv(WatchOf(l2, id)) && Mask(l2.objects[id].d) == 0
    ensures Inv(l2.(sockets := l2.sockets - {l2.objects[id].fd}, objects := l2.objects - {id}))
    ensures forall k :: k in l2.kernel ==> l2.kernel[k] != id
  {
    var fd := l2.objects[id].fd;
    var l' := l2.(sockets := l2.sockets - {fd}, objects := l2.objects - {id});
    assert ObjectOk(l2, id);
    assert Key(fd, false) !in l2.kernel && Key(fd, true) !in l2.kernel;
    forall k | k in l2.kernel
      ensures k.fd != fd && l2.kernel[k] != id
    {
      assert k == Key(k.fd, false) || k == Key(k.fd, true);
      assert SocketOk(l2, k.fd);
    }
    hide K.Inv, Mask, Balanced;
    forall x
      ensures SocketOk(l', x)
    {
      assert SocketOk(l2, x);
    }
    forall x
      ensures ObjectOk(l', x)
    {
      assert ObjectOk(l2, x);
    }
    forall x | x in l'.objects
      ensures InOrder(l', x)
    {
      assert InOrder(l, x);
      OthersLookTheSame(l, l2, id, x);
    }
  }

  /** Taking a port off a descriptor that is left without a mask. */
  lemma RemovedQuietly(l: Loop, id: Id, port: Port, accepted: bool)
    requires Inv(l) && id in l.objects && Mask(RemovePort(l.objects[id].d, port)) == 0
    ensures
      var d := l.objects[id].d;
      var l2 := Update(SetDescriptor(l, id, RemovePort(d, port)), Mask(d), id, accepted);
      && Linked(l2) && Carried(l2) && OnlyChanged(l, l2, id) && l2.log == l.log && l2.faults == l.faults
      && K.Inv(WatchOf(l2, id)) && Mask(l2.objects[id].d) == 0
  {
    hide *;
    var d := l.objects[id].d;
    var d' := RemovePort(d, port);
    var l1 := Logged(SetDescriptor(l, id, d'), []);
    InvOf(l, id);
    RemoveCommand(WatchOf(l, id), port, accepted);
    Unlogged(l, id, d');
    var l2 := Update(l1, Mask(d), id, accepted);
    ChangedOnly(l, id, d', []);
    UpdateSimulates(l1, Mask(d), id, accepted);
    QuietUpdate(l1, Mask(d), id, accepted);
    OnlyChangedTwice(l, l1, l2, id);
  }

  lemma InvOf(l: Loop, id: Id)
    requires Inv(l) && id in l.objects
    ensures K.Inv(WatchOf(l, id)) && Linked(l) && Carried(l) && Sane(l) && WatchOf(l, id).d == l.objects[id].d
  {
    assert InOrder(l, id);
  }

  lemma Unlogged(l: Loop, id: Id, d: Descriptor)
    requires id in l.objects
    ensures
      var l1 := Logged(SetDescriptor(l, id, d), []);
      && l1 == SetDescriptor(l, id, d) && id in l1.objects && l1.objects[id].d == d
      && l1.log == l.log && l1.faults == l.faults && (Sane(l1) <==> Sane(l))
  {
    assert l.log + [] == l.log;
  }

  lemma RemoveCommand(w: K.Watch, port: Port, accepted: bool)
    requires K.Inv(w)
    ensures K.Inv(K.Update(w.(d := RemovePort(w.d, port)), Mask(w.d), accepted))
  {
    hide K.Inv, K.Update;
    K.CommandKeepsInv(w, K.Remove(port), accepted);
  }

  /** Without a mask there is nothing to refuse; and what the descriptor's view says of the assertions is right. */
  lemma QuietUpdate(l: Loop, oldMask: Events, id: Id, accepted: bool)
    requires id in l.objects && Mask(l.objects[id].d) == 0 && Sane(l)
    requires id in Update(l, oldMask, id, accepted).objects && K.Inv(WatchOf(Update(l, oldMask, id, accepted), id))
    ensures
      var l' := Update(l, oldMask, id, accepted);
      l'.log == l.log && l'.faults == l.faults && Mask(l'.objects[id].d) == 0
  {
    hide Update, K.Inv, Mask;
    UpdateRecords(l, oldMask, id, accepted);
    Sound(WatchOf(Update(l, oldMask, id, accepted), id));
  }

  lemma WithoutPortIs(l: Loop, id: Id, port: Port)
    requires Inv(l) && id in l.objects
    requires var d := l.objects[id].d; d.Single? ==> d.port == ILLEGAL_PORT || d.port == port
    ensures WithoutPort(l, id, port) == SetDescriptor(l, id, RemovePort(l.objects[id].d, port))
  {
    assert InOrder(l, id);
    if port == ILLEGAL_PORT {
      NoPortToRemove(l.objects[id].d);
      assert l.objects[id := l.objects[id]] == l.objects;
    }
  }

  /** A closed socket leaves the map and its object is deleted, with no registration left that carries it. */
  lemma CloseDeletes(l: Loop, id: Id, port: Port, closeSafe: bool, accepted: bool)
    requires Inv(l) && id in l.objects
    requires
      var d := l.objects[id].d;
      if d.Single? then d.port == ILLEGAL_PORT || d.port == port else closeSafe && Ports(d) <= {port}
    ensures
      var l' := HandleClose(l, id, port, closeSafe, accepted);
      && Inv(l') && l'.faults == l.faults && l'.shutdown == l.shutdown
      && l'.objects == l.objects - {id} && l'.sockets == l.sockets - {l.objects[id].fd}
      && forall k :: k in l'.kernel ==> l'.kernel[k] != id
  {
    var d := l.objects[id].d;
    assert Mask(RemovePort(d, port)) == 0 by {
      assert InOrder(l, id);
      if d.Multiple? {
        RemovePortValid(d, port);
        P.EmptyHasNoMask(RemovePort(d, port));
      }
    }
    WithoutPortIs(l, id, port);
    hide Inv, Update, RemovePort, WithoutPort, Mask, K.Inv, Linked, Carried, SameElsewhere;
    RemovedQuietly(l, id, port, accepted);
    var l2 := Update(SetDescriptor(l, id, RemovePort(d, port)), Mask(d), id, accepted);
    DeleteKeepsInv(l, l2, id);
    DestroyedKeepsInv(l2.(sockets := l2.sockets - {l2.objects[id].fd}, objects := l2.objects - {id}), port);
    assert l2.objects - {id} == l.objects - {id};
  }

  /** A listening socket with other listeners loses a port and stays. */
  lemma CloseKeepsOthers(l: Loop, id: Id, port: Port, accepted: bool)
    requires Inv(l) && id in l.objects && l.objects[id].d.Multiple?
    ensures
      var l' := HandleClose(l, id, port, false, accepted);
      && Inv(l') && l'.faults == l.faults && l'.shutdown == l.shutdown
      && l'.objects.Keys == l.objects.Keys && l'.sockets == l.sockets
  {
    ListeningBalance(l, id);
    var d := l.objects[id].d;
    RemoveBalance(l.log, id, d, port);
    WithoutPortIs(l, id, port);
    hide Inv, Update, RemovePort, WithoutPort, Mask, SameElsewhere, Balanced;
    assert l.log + [] == l.log && Logged(SetDescriptor(l, id, RemovePort(d, port)), []) ==
                                  SetDescriptor(l, id, RemovePort(d, port));
    CommandedKeepsInv(l, id, K.Remove(port), [], accepted);
    DestroyedKeepsInv(Update(SetDescriptor(l, id, RemovePort(d, port)), Mask(d), id, accepted), port);
  }

  lemma CloseKeepsInv(l: Loop, id: Id, m: E.Message)
    requires Inv(l) && id in l.objects && m.SocketMessage?
    requires Decode(m.data).Close? && CommandLegal(l, id, m)
    ensures
      var l' := HandleClose(l, id, m.port, m.closeSafe, m.accepted);
      Inv(l') && l'.faults == l.faults && l'.shutdown == l.shutdown
  {
    hide Inv, HandleClose, Decode;
    if l.objects[id].d.Single? || m.closeSafe {
      CloseDeletes(l, id, m.port, m.closeSafe, m.accepted);
    } else {
      CloseKeepsOthers(l, id, m.port, m.accepted);
    }
  }

  lemma ReturnCommandKeepsInv(l: Loop, id: Id, m: E.Message)
    requires Inv(l) && id in l.objects && m.SocketMessage?
    requires Decode(m.data).ReturnTokens? && CommandLegal(l, id, m)
    ensures
      var l' := HandleReturn(l, id, m.port, Decode(m.data).count, m.accepted);
      Inv(l') && l'.faults == l.faults && l'.shutdown == l.shutdown
  {
    hide Inv, HandleReturn, Decode, P.Outstanding;
    ReturnKeepsInv(l, id, m.port, Decode(m.data).count, m.accepted);
  }

  lemma MaskCommandKeepsInv(l: Loop, id: Id, m: E.Message)
    requires Inv(l) && id in l.objects && m.SocketMessage?
    requires Decode(m.data).SetEventMask? && CommandLegal(l, id, m)
    ensures
      var l' := HandleSetMask(l, id, m.port, Decode(m.data).events, m.accepted);
      Inv(l') && l'.faults == l.faults && l'.shutdown == l.shutdown
  {
    hide Inv, HandleSetMask, Decode;
    AnyMask(Decode(m.data).events);
    SetMaskKeepsInv(l, id, m.port, Decode(m.data).events, m.accepted);
  }

  lemma OtherCommand(l: Loop, id: Id, m: E.Message)
    requires id in l.objects && m.SocketMessage? && CommandLegal(l, id, m)
    requires !(Decode(m.data).Close? || Decode(m.data).ReturnTokens? || Decode(m.data).SetEventMask?)
    ensures HandleCommand(l, id, m) == l
  {
    hide Decode, HandleClose, HandleReturn, HandleSetMask;
  }

  lemma CommandKeepsInv(l: Loop, id: Id, m: E.Message)
    requires Inv(l) && id in l.objects && m.SocketMessage? && CommandLegal(l, id, m)
    ensures
      var l' := HandleCommand(l, id, m);
      Inv(l') && l'.faults == l.faults && l'.shutdown == l.shutdown
  {
    hide Inv, HandleClose, HandleReturn, HandleSetMask, Decode, CommandLegal;
    match Decode(m.data) {
      case Close => CloseKeepsInv(l, id, m);
      case ReturnTokens(_) => ReturnCommandKeepsInv(l, id, m);
      case SetEventMask(_) => MaskCommandKeepsInv(l, id, m);
      case _ => OtherCommand(l, id, m);
    }
  }

  lemma SocketKeepsInv(l: Loop, m: E.Message)
    requires Inv(l) && m.SocketMessage? && MessageLegal(l, m)
    ensures
      var l' := HandleSocket(l, m);
      Inv(l') && l'.faults == l.faults && l'.shutdown == l.shutdown
  {
    hide Inv, HandleCommand, CommandLegal, GetDescriptorInfo, IsListening;
    if m.fd != -1 {
      GetKeepsInv(l, m.fd, IsListening(m.data));
      var (l1, id) := GetDescriptorInfo(l, m.fd, IsListening(m.data));
      CommandKeepsInv(l1, id, m);
    }
  }

  lemma AnyMask(events: Events)
    ensures events == 0 || events == IN_EVENT ==> events & !(IN_EVENT | OUT_EVENT) == 0
  {
  }

  lemma {:induction false} MessagesKeepInv(l: Loop, ms: seq<E.Message>)
    requires Inv(l) && MessagesLegal(l, ms)
    ensures Inv(HandleMessages(l, ms)) && HandleMessages(l, ms).faults == l.faults
    decreases ms
  {
    hide HandleSocket, MessageLegal, K.Inv, Balanced;
    if ms != [] {
      match ms[0] {
        case TimerMessage(_, _) =>
        case ShutdownMessage => ShutdownKeepsInv(l);
        case SocketMessage(_, _, _, _, _) => SocketKeepsInv(l, ms[0]);
      }
      hide Inv;
      MessagesKeepInv(HandleMessage(l, ms[0]), ms[1..]);
    }
  }

  lemma ShutdownKeepsInv(l: Loop)
    requires Inv(l)
    ensures Inv(l.(shutdown := true))
  {
    hide K.Inv, Balanced;
    var l' := l.(shutdown := true);
    assert forall fd :: SocketOk(l, fd) ==> SocketOk(l', fd);
    assert forall id :: ObjectOk(l, id) ==> ObjectOk(l', id);
    assert forall id :: id in l'.objects ==> InOrder(l, id) && WatchOf(l', id) == WatchOf(l, id);
  }

  // ---------- runs ----------

  lemma RoundKeepsInv(l: Loop, r: Round)
    requires Inv(l) && RoundLegal(l, r)
    ensures
      var l' := HandleRound(l, r);
      Inv(l') && l'.faults == l.faults + (if ReportsClose(l, r.reports) then {ListeningReport} else {})
  {
    hide Inv, BatchLegal, MessagesLegal, Deliverable;
    LegalIsDeliverable(l, r.reports);
    ReportsKeepInv(l, r.reports);
    if Interrupt in r.reports {
      MessagesKeepInv(HandleReports(l, r.reports), r.messages);
    }
  }

  /** At some point of the run a close of a listening socket is reported. */
  ghost predicate RunCloses(l: Loop, rs: seq<Round>)
    decreases rs
  {
    rs != [] && !l.shutdown && (ReportsClose(l, rs[0].reports) || RunCloses(HandleRound(l, rs[0]), rs[1..]))
  }

  /**
   * Over every legal run every event of a batch names a live descriptor, each notification goes to a legal port,
   * registrations match the masks of live descriptors, and the credits balance. One assertion can fail, that a
   * listening socket hears of new connections only: it fails exactly in runs where the close of one is reported.
   */
  lemma {:induction false} EveryRunIsSafe(l: Loop, rs: seq<Round>)
    requires Inv(l) && RunLegal(l, rs)
    ensures
      var l' := Poll(l, rs);
      Inv(l') && l'.faults == l.faults + (if RunCloses(l, rs) then {ListeningReport} else {})
    decreases rs
  {
    hide Inv, RoundLegal, HandleRound, ReportsClose;
    if rs != [] && !l.shutdown {
      RoundKeepsInv(l, rs[0]);
      EveryRunIsSafe(HandleRound(l, rs[0]), rs[1..]);
    }
  }

  lemma StartIsSafe()
    ensures Inv(Start()) && Start().faults == {}
  {
    assert forall fd :: SocketOk(Start(), fd);
    assert forall id :: ObjectOk(Start(), id);
  }

  // ---------- the close of a listening socket ----------

  /** Wherever a listening socket is registered, the report of its close is a legal batch that fails the assertion. */
  lemma ListeningCloseFails(l: Loop, k: Key, accepted: bool)
    requires Inv(l) && k in l.kernel && l.kernel[k] in l.objects && l.objects[l.kernel[k]].d.Multiple?
    ensures
      var r := Round([Ready(l.kernel[k], false, true, false, accepted)], []);
      RoundLegal(l, r) && ListeningReport in HandleRound(l, r).faults
  {
    var e := Ready(l.kernel[k], false, true, false, accepted);
    RegisteredIsLive(l, k);
    assert k == Key(k.fd, e.write);
    hide Inv, HandleReady;
    RoundKeepsInv(l, Round([e], []));
  }

  const LISTENER := Port(1)

  /** Someone listens on descriptor 5 and waits for connections. */
  function ListenMessage(): (m: E.Message)
  {
    E.SocketMessage(5, LISTENER, Encode(SET_EVENT_MASK_COMMAND, 1, true), true, false)
  }

  function ListenRound(): (r: Round)
  {
    Round([Interrupt], [ListenMessage()])
  }

  lemma ListenDecodes()
    ensures Decode(ListenMessage().data) == SetEventMask(IN_EVENT) && IsListening(ListenMessage().data)
  {
    DecodeEncode(1, true);
  }

  lemma ListenerWants()
    ensures
      var d := SetPortAndMask(NewDescriptor(true), LISTENER, IN_EVENT);
      && d.Multiple? && Mask(d) == IN_EVENT && Mask(NewDescriptor(true)) == 0
      && K.FiltersOf(IN_EVENT) == K.Filters(true, false)
  {
  }

  lemma ListenerIsRegistered()
    ensures RoundLegal(Start(), ListenRound())
    ensures
      var l := HandleRound(Start(), ListenRound());
      && !l.shutdown && Key(5, false) in l.kernel && l.kernel[Key(5, false)] == 0
      && 0 in l.objects && l.objects[0].d.Multiple?
  {
    ListenDecodes();
    ListenerWants();
    hide Decode, IsListening, Mask, SetPortAndMask, NewDescriptor, K.FiltersOf, Encode;
    var m := ListenMessage();
    assert [Interrupt][1..] == [] && [m][1..] == [];
    assert HandleReports(Start(), [Interrupt]) == HandleReports(Start(), []) == Start();
    var (l1, id) := GetDescriptorInfo(Start(), 5, true);
    assert id == 0 && HandleMessage(Start(), m) == HandleSetMask(l1, 0, LISTENER, IN_EVENT, true);
    assert HandleMessages(Start(), [m]) == HandleMessages(HandleMessage(Start(), m), []) == HandleMessage(Start(), m);
    assert l1.objects[0].d == NewDescriptor(true);
  }

  /** A legal run from the start that fails the assertion. */
  lemma ListeningCloseCanHappen()
    ensures
      var rs := [ListenRound(), Round([Ready(0, false, true, false, true)], [])];
      RunLegal(Start(), rs) && Poll(Start(), rs).faults == {ListeningReport}
  {
    var r := Round([Ready(0, false, true, false, true)], []);
    var rs := [ListenRound(), r];
    var l := HandleRound(Start(), ListenRound());
    StartIsSafe();
    ListenerIsRegistered();
    hide Inv, HandleRound, RoundLegal, ListenRound;
    RoundKeepsInv(Start(), ListenRound());
    ListeningCloseFails(l, Key(5, false), true);
    assert rs[1..] == [r] && [r][1..] == [];
    assert RunLegal(HandleRound(l, r), []);
    assert RunLegal(l, [r]);
    assert Poll(Start(), rs) == Poll(l, [r]);
    assert Poll(l, [r]) == Poll(HandleRound(l, r), []) == HandleRound(l, r);
    EveryRunIsSafe(Start(), rs);
  }
}
