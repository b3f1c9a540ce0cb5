/** The Linux event loop as a state machine over values: its steps, and its runs under any kernel and any isolates. */
module EpollSpec {
  import opened Flags
  import opened DescriptorSpec
  import Heap = HeapSpec

  /** Identity of a DescriptorInfo object; never reused. */
  type Id = nat

  /** One entry of the kernel's interest set. */
  datatype Registration = Registration(di: Id, events: bv32)

  /** What the handler did, in order. */
  datatype Record =
    | Attached(di: Id, port: Port)
    | Notified(di: Id, port: Port, events: Events)
    | Broadcast(di: Id, ports: set<Port>, events: Events)
    | Returned(di: Id, port: Port, count: nat)
    | Destroyed(port: Port)
    | TimerSet(port: Port, deadline: int)
    | TimerFired(port: Port, deadline: int, now: int)

  /** The ways to reach undefined behaviour or a failing assertion. */
  datatype Fault =
    | DeadDescriptor
    | NoPort
    | ListeningMaskChange
    | AlreadyRegistered
    | ListeningReport
    | ListeningShutdown
    | ListeningMask
    | WrongPort
    | UnknownPort
    | TooManyTokens
    | MaskOnClose
    | BadEventMask
    | BadCommand

  datatype Loop = Loop(
    infos: map<Id, Info>,          // DescriptorInfo objects not yet deleted
    sockets: map<int, Id>,         // socket_map_
    epoll: map<int, Registration>, // the kernel's interest set
    nextId: Id,
    timers: seq<Heap.Entry<Port>>, // the heap array of timeout_queue_
    armed: Timespec,
    shutdown: bool,
    log: seq<Record>,
    faults: set<Fault>
  )

  function Start(): (l: Loop)
  {
    Loop(map[], map[], map[], 0, [], Timespec(0, 0), false, [], {})
  }

  function Check(l: Loop, condition: bool, f: Fault): (r: Loop)
  {
    if condition then l else l.(faults := l.faults + {f})
  }

  function Logged(l: Loop, rs: seq<Record>): (r: Loop)
  {
    l.(log := l.log + rs)
  }

  function SetDescriptor(l: Loop, id: Id, d: Descriptor): (r: Loop)
    requires id in l.infos
  {
    l.(infos := l.infos[id := Info(l.infos[id].fd, d)])
  }

  // ---------- the interest set ----------

  function WantedEvents(d: Descriptor): (events: bv32)
  {
    EPOLLRDHUP | PollEvents(Mask(d)) | (if d.Single? then EPOLLET else 0)
  }

  function NotifyAllPorts(l: Loop, id: Id, events: Events): (r: Loop)
    requires id in l.infos
    ensures id in r.infos
  {
    var d := l.infos[id].d;
    Logged(SetDescriptor(l, id, NotifyAll(d)), [Broadcast(id, Ports(d), events)])
  }

  /** The kernel refuses a second registration of the same descriptor. */
  function AddToEpoll(l: Loop, id: Id, accepted: bool): (r: Loop)
    requires id in l.infos
    ensures id in r.infos
  {
    var Info(fd, d) := l.infos[id];
    var l1 := Check(l, fd !in l.epoll, AlreadyRegistered);
    if accepted && fd !in l.epoll then
      l1.(epoll := l1.epoll[fd := Registration(id, WantedEvents(d))])
    else
      NotifyAllPorts(l1, id, CLOSE_EVENT)
  }

  function RemoveFromEpoll(l: Loop, id: Id): (r: Loop)
    requires id in l.infos
  {
    l.(epoll := l.epoll - {l.infos[id].fd})
  }

  function UpdateEpoll(l: Loop, oldMask: Events, id: Id, accepted: bool): (r: Loop)
    requires id in l.infos
    ensures id in r.infos
  {
    var newMask := Mask(l.infos[id].d);
    if oldMask != 0 && newMask == 0 then
      RemoveFromEpoll(l, id)
    else if oldMask == 0 && newMask != 0 then
      AddToEpoll(l, id, accepted)
    else if oldMask != 0 && newMask != 0 && oldMask != newMask then
      AddToEpoll(RemoveFromEpoll(Check(l, l.infos[id].d.Single?, ListeningMaskChange), id), id, accepted)
    else l
  }

  // ---------- timers ----------

  function TimerValue(timers: seq<Heap.Entry<Port>>): (t: Timespec)
  {
    if timers == [] then Timespec(0, 0)
    else Timespec(timers[0].priority / 1000, (timers[0].priority % 1000) * 1000000)
  }

  function UpdateTimerFd(l: Loop): (r: Loop)
  {
    l.(armed := TimerValue(l.timers))
  }

  function FireTimer(l: Loop, now: int): (r: Loop)
    requires l.timers != []
  {
    Logged(l.(timers := Heap.RemoveAt(l.timers, 0)), [TimerFired(l.timers[0].value, l.timers[0].priority, now)])
  }

  function HandleTimer(l: Loop, now: int): (r: Loop)
  {
    UpdateTimerFd(if l.timers == [] then l else FireTimer(l, now))
  }

  // ---------- reports of the kernel ----------

  datatype Report =
    | InterruptReady
    | TimerReady
    | DescriptorReady(di: Id, events: bv32)

  /** A report, and whether the kernel would accept the registration it may lead to. */
  datatype Event = Event(report: Report, accepted: bool)

  /** An in, out or close report goes to the next port in turn. */
  function HandleIo(l: Loop, id: Id, mask: Events, accepted: bool): (r: Loop)
    requires id in l.infos
  {
    var d := l.infos[id].d;
    var (d', port) := NextNotify(d);
    var l1 := Check(Check(l, d.Single? || mask == IN_EVENT, ListeningReport), port != ILLEGAL_PORT, NoPort);
    Logged(UpdateEpoll(SetDescriptor(l1, id, d'), Mask(d), id, accepted), [Notified(id, port, mask)])
  }

  function HandleReady(l: Loop, id: Id, events: bv32, accepted: bool): (r: Loop)
  {
    if id !in l.infos then Check(l, false, DeadDescriptor)
    else
      var mask := EventMask(events);
      if mask & ERROR_EVENT != 0 then
        UpdateEpoll(NotifyAllPorts(l, id, mask), Mask(l.infos[id].d), id, accepted)
      else if mask != 0 then
        HandleIo(l, id, mask, accepted)
      else l
  }

  function HandleEvent(l: Loop, e: Event, now: int): (r: Loop)
  {
    match e.report
    case InterruptReady => l
    case TimerReady => HandleTimer(l, now)
    case DescriptorReady(id, events) => HandleReady(l, id, events, e.accepted)
  }

  function HandleReports(l: Loop, es: seq<Event>, now: int): (r: Loop)
    decreases es
  {
    if es == [] then l else HandleReports(HandleEvent(l, es[0], now), es[1..], now)
  }

  // ---------- interrupt messages ----------

  /** A message; `fd` is the socket's descriptor when it is handled, -1 once closed. */
  datatype Message =
    | TimerMessage(port: Port, timeout: int)
    | ShutdownMessage
    | SocketMessage(fd: int, port: Port, data: bv64, accepted: bool, closeSafe: bool)

  function GetDescriptorInfo(l: Loop, fd: int, listening: bool): (r: (Loop, Id))
  {
    if fd in l.sockets then (l, l.sockets[fd])
    else (l.(infos := l.infos[l.nextId := Info(fd, NewDescriptor(listening))],
             sockets := l.sockets[fd := l.nextId],
             nextId := l.nextId + 1),
          l.nextId)
  }

  /** The port stops listening. */
  function WithoutPort(l: Loop, id: Id, port: Port): (r: Loop)
    requires id in l.infos
  {
    var d := l.infos[id].d;
    if port == ILLEGAL_PORT then l
    else
      var l1 := Check(l, d.Multiple? || d.port == ILLEGAL_PORT || d.port == port, WrongPort);
      SetDescriptor(l1, id, RemovePort(d, port))
  }

  function HandleClose(l: Loop, id: Id, port: Port, closeSafe: bool, accepted: bool): (r: Loop)
    requires id in l.infos
  {
    var Info(fd, d) := l.infos[id];
    var l1 := WithoutPort(l, id, port);
    var newMask := Mask(l1.infos[id].d);
    var l2 := UpdateEpoll(l1, Mask(d), id, accepted);
    var l3 := if d.Single? || closeSafe then
                Check(l2, newMask == 0, MaskOnClose).(sockets := l2.sockets - {fd}, infos := l2.infos - {id})
              else l2;
    Logged(l3, [Destroyed(port)])
  }

  /** The port gets tokens back. */
  function WithTokens(l: Loop, id: Id, port: Port, count: nat): (r: Loop)
    requires id in l.infos
  {
    var d := l.infos[id].d;
    var l1 := Check(Check(l, d.Single? || port in d.ports, UnknownPort), d.Multiple? || d.port == port, WrongPort);
    var d' := ReturnTokensTo(d, port, count);
    var l2 := Check(l1, NotOverfull(d', port), TooManyTokens);
    Logged(SetDescriptor(l2, id, d'), [Returned(id, port, count)])
  }

  function HandleReturn(l: Loop, id: Id, port: Port, count: nat, accepted: bool): (r: Loop)
    requires id in l.infos
  {
    UpdateEpoll(WithTokens(l, id, port, count), Mask(l.infos[id].d), id, accepted)
  }

  function CheckMask(l: Loop, d: Descriptor, port: Port, events: Events): (r: Loop)
    ensures r == l.(faults := r.faults)
  {
    var l1 := Check(l, events & !(IN_EVENT | OUT_EVENT) == 0, BadEventMask);
    var l2 := Check(l1, d.Multiple? || d.port == ILLEGAL_PORT || d.port == port, WrongPort);
    Check(l2, d.Single? || events == 0 || events == IN_EVENT, ListeningMask)
  }

  /** The port listens for `events`. */
  function WithMask(l: Loop, id: Id, port: Port, events: Events): (r: Loop)
    requires id in l.infos
  {
    var d := l.infos[id].d;
    var l1 := CheckMask(l, d, port, events);
    var records := if port in Ports(d) then [] else [Attached(id, port)];
    Logged(SetDescriptor(l1, id, SetPortAndMask(d, port, events)), records)
  }

  function HandleSetMask(l: Loop, id: Id, port: Port, events: Events, accepted: bool): (r: Loop)
    requires id in l.infos
  {
    UpdateEpoll(WithMask(l, id, port, events), Mask(l.infos[id].d), id, accepted)
  }

  function HandleSocket(l: Loop, m: Message): (r: Loop)
    requires m.SocketMessage?
  {
    if m.fd == -1 then l
    else
      var (l1, id) := GetDescriptorInfo(l, m.fd, IsListening(m.data));
      if id !in l1.infos then Check(l1, false, DeadDescriptor)
      else
        match Decode(m.data)
        case ShutdownRead => Check(l1, l1.infos[id].d.Single?, ListeningShutdown)
        case ShutdownWrite => Check(l1, l1.infos[id].d.Single?, ListeningShutdown)
        case Close => HandleClose(l1, id, m.port, m.closeSafe, m.accepted)
        case ReturnTokens(count) => HandleReturn(l1, id, m.port, count, m.accepted)
        case SetEventMask(events) => HandleSetMask(l1, id, m.port, events, m.accepted)
        case Unreachable => Check(l1, false, BadCommand)
  }

  function HandleMessage(l: Loop, m: Message): (r: Loop)
  {
    match m
    case TimerMessage(port, timeout) =>
      UpdateTimerFd(Logged(l.(timers := Heap.UpdateTimeout(l.timers, port, timeout)), [TimerSet(port, timeout)]))
    case ShutdownMessage => l.(shutdown := true)
    case SocketMessage(_, _, _, _, _) => HandleSocket(l, m)
  }

  function HandleMessages(l: Loop, ms: seq<Message>): (r: Loop)
    decreases ms
  {
    if ms == [] then l else HandleMessages(HandleMessage(l, ms[0]), ms[1..])
  }

  // ---------- runs ----------

  /** One return of epoll_wait at time `now`, with the messages then waiting in the interrupt pipe. */
  datatype Round = Round(now: int, events: seq<Event>, messages: seq<Message>)

  predicate InterruptSeen(es: seq<Event>)
  {
    exists i :: 0 <= i < |es| && es[i].report.InterruptReady?
  }

  /** Messages are handled after the whole batch. */
  function HandleRound(l: Loop, r: Round): (l': Loop)
  {
    var l1 := HandleReports(l, r.events, r.now);
    if InterruptSeen(r.events) then HandleMessages(l1, r.messages) else l1
  }

  function Poll(l: Loop, rs: seq<Round>): (l': Loop)
    decreases rs
  {
    if rs == [] || l.shutdown then l else Poll(HandleRound(l, rs[0]), rs[1..])
  }
}
