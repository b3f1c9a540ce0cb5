/** Descriptors with one or many ports as values: token credits, readiness and the round robin. */
module DescriptorSpec {
  import opened Flags
  import opened CircularLists

  const SINGLE_TOKENS := 16
  const LISTENER_TOKENS := 4

  /** A port listening on a shared descriptor. */
  datatype PortState = PortState(reading: bool, tokens: int) {
    predicate Ready()
    {
      tokens > 0 && reading
    }
  }

  datatype Descriptor =
    | Single(port: Port, tokens: int, mask: Events)
    | Multiple(ports: map<Port, PortState>, active: seq<Port>)

  /** A descriptor with its operating system number. */
  datatype Info = Info(fd: int, d: Descriptor)

  function NewDescriptor(listening: bool): (d: Descriptor)
    ensures Valid(d) && Ports(d) == {} && Mask(d) == 0
  {
    if listening then Multiple(map[], []) else Single(ILLEGAL_PORT, SINGLE_TOKENS, 0)
  }

  ghost predicate NoDuplicates<T>(s: seq<T>)
  {
    forall i, j :: 0 <= i < j < |s| ==> s[i] != s[j]
  }

  /** `active` lists exactly the ready ports, each once. */
  ghost predicate ActiveExact(ports: map<Port, PortState>, active: seq<Port>)
  {
    && NoDuplicates(active)
    && (forall p :: p in active <==> p in ports && ports[p].Ready())
  }

  ghost predicate Valid(d: Descriptor)
  {
    match d
    case Single(port, _, mask) => port == ILLEGAL_PORT ==> mask == 0
    case Multiple(ports, active) => ILLEGAL_PORT !in ports && ActiveExact(ports, active)
  }

  /** The ports that a broadcast reaches. */
  function Ports(d: Descriptor): (ps: set<Port>)
  {
    match d
    case Single(port, _, _) => if port == ILLEGAL_PORT then {} else {port}
    case Multiple(ports, _) => ports.Keys
  }

  function Tokens(d: Descriptor, p: Port): (n: int)
    requires p in Ports(d)
  {
    match d
    case Single(_, tokens, _) => tokens
    case Multiple(ports, _) => ports[p].tokens
  }

  function InitialTokens(d: Descriptor): (n: int)
  {
    if d.Single? then SINGLE_TOKENS else LISTENER_TOKENS
  }

  function Mask(d: Descriptor): (m: Events)
    ensures Valid(d) && m != 0 ==> Ports(d) != {}
  {
    match d
    case Single(_, tokens, mask) => if tokens <= 0 then 0 else mask
    case Multiple(ports, active) => if active != [] then var p := active[0]; assert p in active; IN_EVENT else 0
  }

  /** The active list after the state of `p` changed from `was` to `now`. */
  function Reactivate(active: seq<Port>, p: Port, was: bool, now: bool): (r: seq<Port>)
  {
    if was && !now then RemoveFirst(active, p)
    else if !was && now then active + [p]
    else active
  }

  function SetPortAndMask(d: Descriptor, port: Port, mask: Events): (r: Descriptor)
  {
    match d
    case Single(_, tokens, _) => Single(port, tokens, mask)
    case Multiple(ports, active) =>
      var e := if port in ports then ports[port] else PortState(false, LISTENER_TOKENS);
      var e' := e.(reading := mask == IN_EVENT);
      Multiple(ports[port := e'], Reactivate(active, port, e.Ready(), e'.Ready()))
  }

  function RemovePort(d: Descriptor, port: Port): (r: Descriptor)
  {
    match d
    case Single(_, tokens, _) => Single(ILLEGAL_PORT, tokens, 0)
    case Multiple(ports, active) =>
      if port !in ports then d
      else Multiple(ports - {port}, if ports[port].Ready() then RemoveFirst(active, port) else active)
  }

  function RemoveAllPorts(d: Descriptor): (r: Descriptor)
  {
    match d
    case Single(_, tokens, _) => Single(ILLEGAL_PORT, tokens, 0)
    case Multiple(_, _) => Multiple(map[], [])
  }

  /** Takes a token for the next port in turn; the illegal port when nobody is ready. */
  function NextNotify(d: Descriptor): (r: (Descriptor, Port))
  {
    match d
    case Single(port, tokens, mask) => (Single(port, tokens - 1, mask), port)
    case Multiple(ports, active) =>
      if active == [] || active[0] !in ports then (d, ILLEGAL_PORT)
      else
        var p := active[0];
        var e := ports[p].(tokens := ports[p].tokens - 1);
        (Multiple(ports[p := e], if e.tokens <= 0 then active[1..] else Rotated(active)), p)
  }

  function TakeOneEach(ports: map<Port, PortState>): (r: map<Port, PortState>)
    ensures r.Keys == ports.Keys
    ensures forall p :: p in r ==> r[p] == ports[p].(tokens := ports[p].tokens - 1)
  {
    map p | p in ports :: ports[p].(tokens := ports[p].tokens - 1)
  }

  /** The listed ports that stay ready in `ports`, in order. */
  function StillReady(ports: map<Port, PortState>, active: seq<Port>): (r: seq<Port>)
    ensures forall p :: p in r <==> p in active && p in ports && ports[p].Ready()
  {
    if active == [] then []
    else
      var rest := StillReady(ports, active[1..]);
      assert active == [active[0]] + active[1..];
      if active[0] in ports && ports[active[0]].Ready() then [active[0]] + rest else rest
  }

  /** Takes a token from every port and tells them all. */
  function NotifyAll(d: Descriptor): (r: Descriptor)
  {
    match d
    case Single(port, tokens, mask) => Single(port, tokens - 1, mask)
    case Multiple(ports, active) =>
      var taken := TakeOneEach(ports);
      Multiple(taken, StillReady(taken, active))
  }

  function ReturnTokensTo(d: Descriptor, port: Port, count: nat): (r: Descriptor)
  {
    match d
    case Single(p, tokens, mask) => Single(p, tokens + count, mask)
    case Multiple(ports, active) =>
      if port !in ports then d
      else
        var e := ports[port];
        var e' := e.(tokens := e.tokens + count);
        Multiple(ports[port := e'], if !e.Ready() && e'.Ready() then active + [port] else active)
  }

  /** The counter that `port` pays from holds no more than its initial amount. */
  predicate NotOverfull(d: Descriptor, port: Port)
  {
    match d
    case Single(_, tokens, _) => tokens <= SINGLE_TOKENS
    case Multiple(ports, _) => port in ports ==> ports[port].tokens <= LISTENER_TOKENS
  }

  // ---------- every operation keeps `active` exact ----------

  lemma {:induction false} RemoveFirstExact<T>(s: seq<T>, x: T)
    requires NoDuplicates(s)
    ensures NoDuplicates(RemoveFirst(s, x))
    ensures forall y :: y in RemoveFirst(s, x) <==> y in s && y != x
  {
    if s != [] {
      assert s == [s[0]] + s[1..];
      assert s[0] !in s[1..];
      if s[0] != x {
        RemoveFirstExact(s[1..], x);
      }
    }
  }

  lemma {:induction false} StillReadyNoDuplicates(ports: map<Port, PortState>, active: seq<Port>)
    requires NoDuplicates(active)
    ensures NoDuplicates(StillReady(ports, active))
  {
    if active != [] {
      assert active[0] !in active[1..];
      StillReadyNoDuplicates(ports, active[1..]);
    }
  }

  /** A change of one port's state drops it from the ready ones exactly when it stops being ready. */
  lemma {:induction false} StillReadyStep(ports: map<Port, PortState>, active: seq<Port>, p: Port, e: PortState)
    requires NoDuplicates(active) && p in ports && (e.Ready() ==> ports[p].Ready())
    ensures StillReady(ports[p := e], active) ==
            if ports[p].Ready() && !e.Ready() then RemoveFirst(StillReady(ports, active), p)
            else StillReady(ports, active)
  {
    if active != [] {
      assert active[0] !in active[1..];
      StillReadyStep(ports, active[1..], p, e);
      if active[0] == p {
        assert p !in StillReady(ports, active[1..]);
      }
    }
  }

  lemma {:induction false} AllStillReady(ports: map<Port, PortState>, active: seq<Port>)
    requires forall p :: p in active ==> p in ports && ports[p].Ready()
    ensures StillReady(ports, active) == active
  {
    if active != [] {
      var p := active[0];
      assert p in active;
      AllStillReady(ports, active[1..]);
    }
  }

  lemma SetPortAndMaskValid(d: Descriptor, port: Port, mask: Events)
    requires Valid(d) && port != ILLEGAL_PORT
    ensures Valid(SetPortAndMask(d, port, mask))
  {
    if d.Multiple? {
      RemoveFirstExact(d.active, port);
    }
  }

  lemma RemovePortValid(d: Descriptor, port: Port)
    requires d.Multiple? && Valid(d)
    ensures Valid(RemovePort(d, port)) && Ports(RemovePort(d, port)) == Ports(d) - {port}
  {
    RemoveFirstExact(d.active, port);
  }

  /** There is nothing to take off for the illegal port. */
  lemma NoPortToRemove(d: Descriptor)
    requires Valid(d) && (d.Single? ==> d.port == ILLEGAL_PORT)
    ensures RemovePort(d, ILLEGAL_PORT) == d
  {
  }

  lemma NextNotifyValid(d: Descriptor)
    requires Valid(d) && Mask(d) != 0
    ensures Valid(NextNotify(d).0) && NextNotify(d).1 in Ports(d)
    ensures Tokens(d, NextNotify(d).1) >= 1
  {
    if d.Multiple? {
      var p := d.active[0];
      assert p in d.active;
      assert d.active == [p] + d.active[1..];
      assert p !in d.active[1..];
      assert forall q :: q in d.active[1..] <==> q in d.active && q != p;
    }
  }

  lemma NotifyAllValid(d: Descriptor)
    requires Valid(d)
    ensures Valid(NotifyAll(d)) && Ports(NotifyAll(d)) == Ports(d)
    ensures forall p :: p in Ports(d) ==> Tokens(NotifyAll(d), p) == Tokens(d, p) - 1
  {
    if d.Multiple? {
      StillReadyNoDuplicates(TakeOneEach(d.ports), d.active);
    }
  }

  lemma ReturnTokensValid(d: Descriptor, port: Port, count: nat)
    requires Valid(d)
    ensures Valid(ReturnTokensTo(d, port, count))
  {
  }

  datatype Operation =
    | OpSet(port: Port, mask: Events)
    | OpRemove(port: Port)
    | OpRemoveAll
    | OpNext
    | OpNotifyAll
    | OpReturn(port: Port, count: nat)

  function Apply(d: Descriptor, op: Operation): (r: Descriptor)
  {
    match op
    case OpSet(port, mask) => SetPortAndMask(d, port, mask)
    case OpRemove(port) => RemovePort(d, port)
    case OpRemoveAll => RemoveAllPorts(d)
    case OpNext => NextNotify(d).0
    case OpNotifyAll => NotifyAll(d)
    case OpReturn(port, count) => ReturnTokensTo(d, port, count)
  }

  function ApplyAll(d: Descriptor, ops: seq<Operation>): (r: Descriptor)
    decreases ops
  {
    if ops == [] then d else ApplyAll(Apply(d, ops[0]), ops[1..])
  }

  /** After any operations on a shared descriptor, the active list is exactly the ready ports, each once. */
  lemma {:induction false} ActiveAlwaysExact(d: Descriptor, ops: seq<Operation>)
    requires d.Multiple? && Valid(d)
    requires forall op :: op in ops && op.OpSet? ==> op.port != ILLEGAL_PORT
    ensures ApplyAll(d, ops).Multiple? && Valid(ApplyAll(d, ops))
    decreases ops
  {
    if ops != [] {
      match ops[0] {
        case OpSet(port, mask) => assert ops[0] in ops; SetPortAndMaskValid(d, port, mask);
        case OpRemove(port) => RemovePortValid(d, port);
        case OpRemoveAll =>
        case OpNext => if Mask(d) != 0 { NextNotifyValid(d); }
        case OpNotifyAll => StillReadyNoDuplicates(TakeOneEach(d.ports), d.active);
        case OpReturn(port, count) =>
      }
      ActiveAlwaysExact(Apply(d, ops[0]), ops[1..]);
    }
  }

  // ---------- round robin ----------

  function AfterNotifies(d: Descriptor, n: nat): (r: Descriptor)
    ensures d.Multiple? ==> r.Multiple?
    decreases n
  {
    if n == 0 then d else AfterNotifies(NextNotify(d).0, n - 1)
  }

  /** The ports that the next `n` notifications go to. */
  function Notified(d: Descriptor, n: nat): (ps: seq<Port>)
    ensures |ps| == n
    decreases n
  {
    if n == 0 then [] else [NextNotify(d).1] + Notified(NextNotify(d).0, n - 1)
  }

  lemma {:induction false} PrefixIsServedFirst(d: Descriptor, s: seq<Port>, t: seq<Port>)
    requires d.Multiple? && d.active == s + t && forall p :: p in d.active ==> p in d.ports
    ensures Notified(d, |s|) == s
    decreases s
  {
    if s != [] {
      var d' := NextNotify(d).0;
      var head := d.active[0];
      assert head in d.active;
      assert forall p :: p in d'.active ==> p in d.active;
      assert d'.active == s[1..] + (if d'.ports[s[0]].tokens <= 0 then t else t + [s[0]]);
      PrefixIsServedFirst(d', s[1..], if d'.ports[s[0]].tokens <= 0 then t else t + [s[0]]);
    }
  }

  /** With k ready listeners the next k notifications reach each of them exactly once, in list order. */
  lemma RoundRobin(d: Descriptor)
    requires d.Multiple? && Valid(d)
    ensures Notified(d, |d.active|) == d.active && NoDuplicates(d.active)
  {
    assert d.active == d.active + [];
    PrefixIsServedFirst(d, d.active, []);
  }

  /** The tokens that the ports in `ps` can still spend. */
  function Credit(ports: map<Port, PortState>, ps: seq<Port>): (n: nat)
    requires forall p :: p in ps ==> p in ports && ports[p].tokens > 0
  {
    if ps == [] then 0
    else
      var p := ps[0];
      assert p in ps;
      ports[p].tokens + Credit(ports, ps[1..])
  }

  lemma {:induction false} CreditFrame(ports: map<Port, PortState>, ports': map<Port, PortState>, ps: seq<Port>)
    requires forall p :: p in ps ==> p in ports && ports[p].tokens > 0 && p in ports' && ports'[p] == ports[p]
    ensures Credit(ports', ps) == Credit(ports, ps)
  {
    if ps != [] {
      var p := ps[0];
      assert p in ps;
      CreditFrame(ports, ports', ps[1..]);
    }
  }

  lemma {:induction false} CreditAppend(ports: map<Port, PortState>, ps: seq<Port>, p: Port)
    requires forall q :: q in ps + [p] ==> q in ports && ports[q].tokens > 0
    ensures p in ps + [p] && Credit(ports, ps + [p]) == Credit(ports, ps) + ports[p].tokens
  {
    assert (ps + [p])[|ps|] == p;
    if ps != [] {
      assert (ps + [p])[1..] == ps[1..] + [p];
      CreditAppend(ports, ps[1..], p);
    }
  }

  lemma NotifySpendsOne(d: Descriptor)
    requires d.Multiple? && Valid(d) && d.active != []
    ensures Valid(NextNotify(d).0)
    ensures Credit(NextNotify(d).0.ports, NextNotify(d).0.active) == Credit(d.ports, d.active) - 1
  {
    NextNotifyValid(d);
    var d' := NextNotify(d).0;
    var p, rest := d.active[0], d.active[1..];
    assert d.active == [p] + rest && p !in rest;
    CreditFrame(d.ports, d'.ports, rest);
    if d'.ports[p].tokens > 0 {
      assert d'.active == rest + [p];
      CreditAppend(d'.ports, rest, p);
    }
  }

  /** Until tokens come back, the mask stays set for exactly the sum of the ready ports' tokens. */
  lemma {:induction false} MaskLastsForCredit(d: Descriptor, n: nat)
    requires d.Multiple? && Valid(d)
    ensures Valid(AfterNotifies(d, n)) && AfterNotifies(d, n).Multiple?
    ensures Mask(AfterNotifies(d, n)) != 0 <==> n < Credit(d.ports, d.active)
    decreases n
  {
    if d.active == [] {
      if n > 0 {
        MaskLastsForCredit(d, n - 1);
      }
    } else {
      NotifySpendsOne(d);
      if n > 0 {
        MaskLastsForCredit(NextNotify(d).0, n - 1);
      }
    }
  }

  /** Over any number of notifications, what a ready port received plus what it has left is what it had. */
  lemma {:induction false} EachSpendsItsOwn(d: Descriptor, n: nat, p: Port)
    requires d.Multiple? && Valid(d) && p in d.ports && n <= Credit(d.ports, d.active)
    ensures p in AfterNotifies(d, n).ports
    ensures multiset(Notified(d, n))[p] + AfterNotifies(d, n).ports[p].tokens == d.ports[p].tokens
    decreases n
  {
    if n > 0 {
      NotifySpendsOne(d);
      var next := NextNotify(d);
      var head := d.active[0];
      assert head in d.active;
      EachSpendsItsOwn(next.0, n - 1, p);
      assert multiset(Notified(d, n)) == multiset{next.1} + multiset(Notified(next.0, n - 1));
    }
  }

  /** Spending the whole credit gives every ready listener exactly its token count and nobody else anything. */
  lemma CreditIsSharedExactly(d: Descriptor, p: Port)
    requires d.Multiple? && Valid(d)
    ensures multiset(Notified(d, Credit(d.ports, d.active)))[p] ==
            if p in d.active then d.ports[p].tokens else 0
  {
    var n := Credit(d.ports, d.active);
    MaskLastsForCredit(d, n);
    NotifiedAreActive(d, n);
    if p in d.active {
      EachSpendsItsOwn(d, n, p);
      ReadinessOnlyByTokens(d, n, p);
    }
  }

  lemma {:induction false} NotifiedAreActive(d: Descriptor, n: nat)
    requires d.Multiple? && Valid(d) && n <= Credit(d.ports, d.active)
    ensures forall p :: p in Notified(d, n) ==> p in d.active
    decreases n
  {
    if n > 0 {
      NotifySpendsOne(d);
      NotifiedAreActive(NextNotify(d).0, n - 1);
      var head := d.active[0];
      assert head in d.active;
    }
  }

  lemma {:induction false} ReadinessOnlyByTokens(d: Descriptor, n: nat, p: Port)
    requires d.Multiple? && Valid(d) && p in d.active && n <= Credit(d.ports, d.active)
    ensures p in AfterNotifies(d, n).ports && AfterNotifies(d, n).ports[p].reading
    ensures AfterNotifies(d, n).ports[p].tokens >= 0
    decreases n
  {
    if n > 0 {
      var d' := NextNotify(d).0;
      NotifySpendsOne(d);
      var head := d.active[0];
      assert head in d.active;
      if p in d'.active {
        ReadinessOnlyByTokens(d', n - 1, p);
      } else {
        SpentPortsStay(d', n - 1, p);
      }
    }
  }

  lemma {:induction false} SpentPortsStay(d: Descriptor, n: nat, p: Port)
    requires d.Multiple? && Valid(d) && p in d.ports && p !in d.active && n <= Credit(d.ports, d.active)
    ensures p in AfterNotifies(d, n).ports && AfterNotifies(d, n).ports[p] == d.ports[p]
    decreases n
  {
    if n > 0 {
      NotifySpendsOne(d);
      var head := d.active[0];
      assert head in d.active;
      SpentPortsStay(NextNotify(d).0, n - 1, p);
    }
  }
}
