/** Bits of event masks, interrupt messages and epoll reports, and the times given to the kernel. */
module Flags {

  datatype Port = Port(id: int)

  const ILLEGAL_PORT := Port(0)

  type Events = bv32

  const IN_EVENT: Events := 1
  const OUT_EVENT: Events := 2
  const ERROR_EVENT: Events := 4
  const CLOSE_EVENT: Events := 8

  /** A time handed to the kernel; a timerfd set to all zero is disarmed. */
  datatype Timespec = Timespec(sec: int, nsec: int)

  const EPOLLIN: bv32 := 0x1
  const EPOLLOUT: bv32 := 0x4
  const EPOLLERR: bv32 := 0x8
  const EPOLLHUP: bv32 := 0x10
  const EPOLLRDHUP: bv32 := 0x2000
  const EPOLLET: bv32 := 0x8000_0000

  const COMMAND_MASK: bv64 := 0x1F00
  const EVENT_MASK: bv64 := 0x1F
  const CLOSE_COMMAND: bv64 := 0x100
  const SHUTDOWN_READ_COMMAND: bv64 := 0x200
  const SHUTDOWN_WRITE_COMMAND: bv64 := 0x400
  const RETURN_TOKEN_COMMAND: bv64 := 0x800
  const SET_EVENT_MASK_COMMAND: bv64 := 0x1000
  const LISTENING_SOCKET: bv64 := 0x1_0000

  datatype Command =
    | ShutdownRead
    | ShutdownWrite
    | Close
    | ReturnTokens(count: nat)
    | SetEventMask(events: Events)
    | Unreachable

  predicate IsListening(data: bv64)
  {
    data & LISTENING_SOCKET != 0
  }

  function TokenCount(data: bv64): (n: nat)
    ensures n < 0x100
  {
    TokenByte(data & 0xFF);
    (data & 0xFF) as nat
  }

  lemma TokenByte(b: bv64)
    requires b <= 0xFF
    ensures b as nat < 0x100
  {
  }

  /** The command of a message, tested in the order of the handler's chain of branches. */
  function Decode(data: bv64): (c: Command)
  {
    var command := data & COMMAND_MASK;
    if command == SHUTDOWN_READ_COMMAND then ShutdownRead
    else if command == SHUTDOWN_WRITE_COMMAND then ShutdownWrite
    else if command == CLOSE_COMMAND then Close
    else if command == RETURN_TOKEN_COMMAND then ReturnTokens(TokenCount(data))
    else if command == SET_EVENT_MASK_COMMAND then SetEventMask((data & EVENT_MASK) as bv32)
    else Unreachable
  }

  /** The word the socket library sends: a command bit, its payload and the listening flag. */
  function Encode(command: bv64, payload: bv64, listening: bool): (data: bv64)
    requires payload <= 0xFF && command & COMMAND_MASK == command
    ensures data & COMMAND_MASK == command && data & 0xFF == payload
    ensures IsListening(data) == listening
  {
    command | payload | (if listening then LISTENING_SOCKET else 0)
  }

  /** The handler reads back each command with its payload, whether or not the listening flag is set. */
  lemma DecodeEncode(payload: bv64, listening: bool)
    requires payload <= 0xFF
    ensures Decode(Encode(SHUTDOWN_READ_COMMAND, payload, listening)) == ShutdownRead
    ensures Decode(Encode(SHUTDOWN_WRITE_COMMAND, payload, listening)) == ShutdownWrite
    ensures Decode(Encode(CLOSE_COMMAND, payload, listening)) == Close
    ensures Decode(Encode(RETURN_TOKEN_COMMAND, payload, listening)) == ReturnTokens(payload as nat)
    ensures payload <= 0x1F ==>
              Decode(Encode(SET_EVENT_MASK_COMMAND, payload, listening)) == SetEventMask(payload as bv32)
  {
    var data := Encode(SET_EVENT_MASK_COMMAND, payload, listening);
    assert payload <= 0x1F ==> data & EVENT_MASK == payload;
  }

  /** The epoll events asked for on behalf of a mask. */
  function PollEvents(mask: Events): (events: bv32)
  {
    (if mask & IN_EVENT != 0 then EPOLLIN else 0) | (if mask & OUT_EVENT != 0 then EPOLLOUT else 0)
  }

  /** What a reported epoll event means to the ports. */
  function EventMask(events: bv32): (mask: Events)
  {
    if events & EPOLLERR != 0 then
      if events & EPOLLIN != 0 then ERROR_EVENT else 0
    else
      (if events & EPOLLIN != 0 then IN_EVENT else 0)
      | (if events & EPOLLOUT != 0 then OUT_EVENT else 0)
      | (if events & (EPOLLHUP | EPOLLRDHUP) != 0 then CLOSE_EVENT else 0)
  }

  predicate IsIoEvent(mask: Events)
  {
    mask & (IN_EVENT | OUT_EVENT | CLOSE_EVENT) != 0 && mask & !(IN_EVENT | OUT_EVENT | CLOSE_EVENT) == 0
  }

  /**
   * What a report stands for: an error hides every other bit, and counts only on a readable descriptor; otherwise
   * each bit of the mask is one of the report's, and a hang-up of either kind closes. Exactly one of the three
   * branches of the event loop applies.
   */
  lemma EventMaskCases(events: bv32)
    ensures EventMask(events) & ERROR_EVENT != 0 <==> events & EPOLLERR != 0 && events & EPOLLIN != 0
    ensures EventMask(events) & IN_EVENT != 0 <==> events & EPOLLERR == 0 && events & EPOLLIN != 0
    ensures EventMask(events) & OUT_EVENT != 0 <==> events & EPOLLERR == 0 && events & EPOLLOUT != 0
    ensures EventMask(events) & CLOSE_EVENT != 0 <==>
            events & EPOLLERR == 0 && (events & EPOLLHUP != 0 || events & EPOLLRDHUP != 0)
    ensures EventMask(events) & ERROR_EVENT != 0 ==> EventMask(events) == ERROR_EVENT
    ensures EventMask(events) & ERROR_EVENT == 0 ==> EventMask(events) == 0 || IsIoEvent(EventMask(events))
  {
  }

  /** A descriptor registered for `mask` is only ever told about directions in `mask`. */
  lemma OnlyWantedDirections(mask: Events, events: bv32)
    requires events & !(PollEvents(mask) | EPOLLRDHUP | EPOLLET | EPOLLERR | EPOLLHUP) == 0
    ensures EventMask(events) & (IN_EVENT | OUT_EVENT) & !mask == 0
  {
  }
}
