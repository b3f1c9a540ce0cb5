/** The whole kqueue loop as a state machine: many descriptors, the socket map, closing and deletion. */
module KqueueLoop {
  import opened Flags
  import opened DescriptorSpec
  import K = Kqueue
  import E = EpollSpec

  /** Identity of a DescriptorInfo object; never reused. */
  type Id = nat

  datatype Object = Object(fd: int, d: Descriptor, tracked: bool, refused: bool)

  /** The kernel keeps one registration for each descriptor number and filter. */
  datatype Key = Key(fd: int, write: bool)

  /** The ways to reach undefined behaviour or a failing assertion. */
  datatype Fault =
    | DeadDescriptor
    | NoPort
    | AlreadyTracked
    | NothingToRegister
    | ListeningMaskChange
    | ListeningWrite
    | ListeningReport
    | ListeningShutdown
    | MaskOnClose
    | WrongPort
    | UnknownPort
    | TooManyTokens
    | BadEventMask
    | ListeningMask
    | BadCommand

  datatype Loop = Loop(
    objects: map<Id, Object>, // DescriptorInfo objects not yet deleted
    sockets: map<int, Id>,    // socket_map_
    kernel: map<Key, Id>,     // the object each registration carries
    nextId: Id,
    shutdown: bool,
    log: seq<E.Record>,       // tokens taken and given back, in order
    faults: set<Fault>
  )

  function Start(): (l: Loop)
  {
    Loop(map[], map[], map[], 0, false, [], {})
  }

  function Check(l: Loop, condition: bool, f: Fault): (r: Loop)
    ensures r == l.(faults := r.faults)
  {
    if condition then l else l.(faults := l.faults + {f})
  }

  function Logged(l: Loop, rs: seq<E.Record>): (r: Loop)
  {
    l.(log := l.log + rs)
  }

  function SetObject(l: Loop, id: Id, o: Object): (r: Loop)
  {
    l.(objects := l.objects[id := o])
  }

  function SetDescriptor(l: Loop, id: Id, d: Descriptor): (r: Loop)
    requires id in l.objects
  {
    SetObject(l, id, l.objects[id].(d := d))
  }

  // ---------- registrations ----------

  function RemoveFromKqueue(l: Loop, id: Id): (r: Loop)
    requires id in l.objects
    ensures id in r.objects
  {
    var o := l.objects[id];
    if !o.tracked then l
    else SetObject(l, id, o.(tracked := false)).(kernel := l.kernel - {Key(o.fd, false), Key(o.fd, true)})
  }

  function Added(kernel: map<Key, Id>, fd: int, f: K.Filters, id: Id): (r: map<Key, Id>)
  {
    var k := if f.read then kernel[Key(fd, false) := id] else kernel;
    if f.write then k[Key(fd, true) := id] else k
  }

  /** The kernel takes the filters. */
  function Accept(l: Loop, id: Id, f: K.Filters): (r: Loop)
    requires id in l.objects
    ensures id in r.objects
  {
    var o := l.objects[id];
    SetObject(l, id, o.(tracked := true)).(kernel := Added(l.kernel, o.fd, f, id))
  }

  /** The kernel does not: the ports are told that the descriptor is closed. */
  function Refuse(l: Loop, id: Id): (r: Loop)
    requires id in l.objects
    ensures id in r.objects
  {
    var o := l.objects[id];
    Logged(SetObject(l, id, o.(d := NotifyAll(o.d), refused := true)), [E.Broadcast(id, Ports(o.d), CLOSE_EVENT)])
  }

  function AddToKqueue(l: Loop, id: Id, accepted: bool): (r: Loop)
    requires id in l.objects
    ensures id in r.objects
  {
    var o := l.objects[id];
    var f := K.FiltersOf(Mask(o.d));
    var l1 := Check(Check(l, !o.tracked, AlreadyTracked), f.read || f.write, NothingToRegister);
    if accepted then Accept(l1, id, f) else Refuse(l1, id)
  }

  function Update(l: Loop, oldMask: Events, id: Id, accepted: bool): (r: Loop)
    requires id in l.objects
    ensures id in r.objects
  {
    var newMask := Mask(l.objects[id].d);
    if oldMask != 0 && newMask == 0 then RemoveFromKqueue(l, id)
    else if oldMask == 0 && newMask != 0 then AddToKqueue(l, id, accepted)
    else if oldMask != 0 && newMask != 0 && oldMask != newMask then
      AddToKqueue(RemoveFromKqueue(Check(l, l.objects[id].d.Single?, ListeningMaskChange), id), id, accepted)
    else l
  }

  // ---------- reports of the kernel ----------

  /** An event of a batch: the object it carries, its filter, its flags, and whether a registration it causes works. */
  datatype Report =
    | Interrupt
    | Ready(id: Id, write: bool, eof: bool, error: bool, accepted: bool)

  /** What a report means to the ports; a listening socket has no write filter. */
  function GetEvents(listening: bool, write: bool, eof: bool, error: bool): (mask: Events)
    ensures mask & ERROR_EVENT != 0 <==> eof && error
    ensures mask & OUT_EVENT != 0 <==> write && !(eof && error)
    ensures mask & IN_EVENT != 0 <==> !write && !(eof && error) && !(listening && eof)
    ensures mask & CLOSE_EVENT != 0 <==> !write && eof && !error
    ensures mask & !(IN_EVENT | OUT_EVENT | ERROR_EVENT | CLOSE_EVENT) == 0
  {
    if eof && error then ERROR_EVENT
    else if write then OUT_EVENT
    else if listening then if eof then CLOSE_EVENT else IN_EVENT
    else if eof then IN_EVENT | CLOSE_EVENT else IN_EVENT
  }

  function HandleReady(l: Loop, e: Report): (r: Loop)
    requires e.Ready?
  {
    if e.id !in l.objects then Check(l, false, DeadDescriptor)
    else
      var d := l.objects[e.id].d;
      var mask := GetEvents(d.Multiple?, e.write, e.eof, e.error);
      var l1 := Check(l, d.Single? || !e.write, ListeningWrite);
      if mask & ERROR_EVENT != 0 then
        var r := E.Broadcast(e.id, Ports(d), mask);
        Update(Logged(SetDescriptor(l1, e.id, NotifyAll(d)), [r]), Mask(d), e.id, e.accepted)
      else
        var (d', port) := NextNotify(d);
        var l2 := Check(Check(l1, d.Single? || mask == IN_EVENT, ListeningReport), port != ILLEGAL_PORT, NoPort);
        Update(Logged(SetDescriptor(l2, e.id, d'), [E.Notified(e.id, port, mask)]), Mask(d), e.id, e.accepted)
  }

  function HandleReports(l: Loop, es: seq<Report>): (r: Loop)
    decreases es
  {
    if es == [] then l
    else HandleReports(if es[0].Interrupt? then l else HandleReady(l, es[0]), es[1..])
  }

  // ---------- interrupt messages ----------

  function GetDescriptorInfo(l: Loop, fd: int, listening: bool): (r: (Loop, Id))
  {
    if fd in l.sockets then (l, l.sockets[fd])
    else (l.(objects := l.objects[l.nextId := Object(fd, NewDescriptor(listening), false, false)],
             sockets := l.sockets[fd := l.nextId],
             nextId := l.nextId + 1),
          l.nextId)
  }

  function WithoutPort(l: Loop, id: Id, port: Port): (r: Loop)
    requires id in l.objects
    ensures id in r.objects
  {
    var d := l.objects[id].d;
    if port == ILLEGAL_PORT then l
    else
      var l1 := Check(l, d.Multiple? || d.port == ILLEGAL_PORT || d.port == port, WrongPort);
      SetDescriptor(l1, id, RemovePort(d, port))
  }

  /** The registry says whether a listener was the last one; the closed number may come back for a new object. */
  function HandleClose(l: Loop, id: Id, port: Port, closeSafe: bool, accepted: bool): (r: Loop)
    requires id in l.objects
  {
    var o := l.objects[id];
    var l1 := WithoutPort(l, id, port);
    var newMask := Mask(l1.objects[id].d);
    var l2 := Update(l1, Mask(o.d), id, accepted);
    var l3 := if o.d.Single? || closeSafe then
                Check(l2, newMask == 0, MaskOnClose).(sockets := l2.sockets - {o.fd}, objects := l2.objects - {id})
              else l2;
    Logged(l3, [E.Destroyed(port)])
  }

  function HandleReturn(l: Loop, id: Id, port: Port, count: nat, accepted: bool): (r: Loop)
    requires id in l.objects
  {
    var d := l.objects[id].d;
    var l1 := Check(Check(l, d.Single? || port in d.ports, UnknownPort), d.Multiple? || d.port == port, WrongPort);
    var d' := ReturnTokensTo(d, port, count);
    var l2 := Check(l1, NotOverfull(d', port), TooManyTokens);
    Update(Logged(SetDescriptor(l2, id, d'), [E.Returned(id, port, count)]), Mask(d), id, accepted)
  }

  function HandleSetMask(l: Loop, id: Id, port: Port, events: Events, accepted: bool): (r: Loop)
    requires id in l.objects
  {
    var d := l.objects[id].d;
    var l1 := Check(l, events & !(IN_EVENT | OUT_EVENT) == 0, BadEventMask);
    var l2 := Check(l1, d.Multiple? || d.port == ILLEGAL_PORT || d.port == port, WrongPort);
    var l3 := Check(l2, d.Single? || events == 0 || events == IN_EVENT, ListeningMask);
    var records := if port in Ports(d) then [] else [E.Attached(id, port)];
    Update(Logged(SetDescriptor(l3, id, SetPortAndMask(d, port, events)), records), Mask(d), id, accepted)
  }

  function HandleCommand(l: Loop, id: Id, m: E.Message): (r: Loop)
    requires m.SocketMessage? && id in l.objects
  {
    match Decode(m.data)
    case ShutdownRead => Check(l, l.objects[id].d.Single?, ListeningShutdown)
    case ShutdownWrite => Check(l, l.objects[id].d.Single?, ListeningShutdown)
    case Close => HandleClose(l, id, m.port, m.closeSafe, m.accepted)
    case ReturnTokens(count) => HandleReturn(l, id, m.port, count, m.accepted)
    case SetEventMask(events) => HandleSetMask(l, id, m.port, events, m.accepted)
    case Unreachable => Check(l, false, BadCommand)
  }

  function HandleSocket(l: Loop, m: E.Message): (r: Loop)
    requires m.SocketMessage?
  {
    if m.fd == -1 then l
    else
      var (l1, id) := GetDescriptorInfo(l, m.fd, IsListening(m.data));
      if id !in l1.objects then Check(l1, false, DeadDescriptor) else HandleCommand(l1, id, m)
  }

  /** Timer messages only concern the timer queue. */
  function HandleMessage(l: Loop, m: E.Message): (r: Loop)
  {
    match m
    case TimerMessage(_, _) => l
    case ShutdownMessage => l.(shutdown := true)
    case SocketMessage(_, _, _, _, _) => HandleSocket(l, m)
  }

  function HandleMessages(l: Loop, ms: seq<E.Message>): (r: Loop)
    decreases ms
  {
    if ms == [] then l else HandleMessages(HandleMessage(l, ms[0]), ms[1..])
  }

  // ---------- runs ----------

  /** One return of kevent, with the messages then waiting in the interrupt pipe. */
  datatype Round = Round(reports: seq<Report>, messages: seq<E.Message>)

  function HandleRound(l: Loop, r: Round): (l': Loop)
  {
    var l1 := HandleReports(l, r.reports);
    if Interrupt in r.reports then HandleMessages(l1, r.messages) else l1
  }

  function Poll(l: Loop, rs: seq<Round>): (l': Loop)
    decreases rs
  {
    if rs == [] || l.shutdown then l else Poll(HandleRound(l, rs[0]), rs[1..])
  }
}
