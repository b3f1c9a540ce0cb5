/** What the operations on a descriptor mean to its ports: who is attached, waits for what, and has which tokens. */
module DescriptorEffects {
  import opened Flags
  import opened CircularLists
  import opened DescriptorSpec

  /** What port `p` waits for. */
  function Wish(d: Descriptor, p: Port): (events: Events)
    requires p in Ports(d)
  {
    match d
    case Single(_, _, mask) => mask
    case Multiple(ports, _) => if ports[p].reading then IN_EVENT else 0
  }

  /** Port `p` waits for something and can pay for a notification. */
  ghost predicate CanBeTold(d: Descriptor, p: Port)
  {
    p in Ports(d) && Tokens(d, p) > 0 && Wish(d, p) != 0
  }

  /** A descriptor waits exactly for what its ports that can be told wait for. */
  lemma MaskIsWishes(d: Descriptor)
    requires Valid(d)
    ensures Mask(d) != 0 <==> exists p :: CanBeTold(d, p)
    ensures forall p :: CanBeTold(d, p) ==> Mask(d) == Wish(d, p)
  {
    if d.Single? {
      assert Mask(d) != 0 ==> CanBeTold(d, d.port);
    } else {
      assert forall p :: p in d.active <==> CanBeTold(d, p);
      assert d.active != [] ==> d.active[0] in d.active;
    }
  }

  /** Somebody can be notified: a connected descriptor may even go into debt. */
  predicate HasTurn(d: Descriptor)
  {
    if d.Single? then d.port != ILLEGAL_PORT else d.active != []
  }

  /** The port whose turn it is. */
  function Turn(d: Descriptor): (p: Port)
    requires HasTurn(d)
  {
    if d.Single? then d.port else d.active[0]
  }

  /** The same ports wait for the same, and those in `ps` have one token less. */
  ghost predicate Pays(d: Descriptor, d': Descriptor, ps: set<Port>)
  {
    && d'.Single? == d.Single? && Ports(d') == Ports(d)
    && forall p :: p in Ports(d) ==>
         Wish(d', p) == Wish(d, p) && Tokens(d', p) == Tokens(d, p) - (if p in ps then 1 else 0)
  }

  /** A notification is for the port in turn and costs it one token, nobody else anything. */
  lemma NotifyPays(d: Descriptor)
    requires Valid(d) && HasTurn(d)
    ensures Turn(d) in Ports(d) && NextNotify(d).1 == Turn(d) && Pays(d, NextNotify(d).0, {Turn(d)})
  {
    if d.Multiple? {
      assert d.active[0] in d.active;
    }
  }

  /** A broadcast costs every port one token. */
  lemma BroadcastPays(d: Descriptor)
    ensures Pays(d, NotifyAll(d), Ports(d))
  {
  }

  /** A port other than `port` waits for the same with the same tokens. */
  ghost predicate OthersAsBefore(d: Descriptor, d': Descriptor, port: Port)
  {
    forall p :: p in Ports(d) && p != port ==>
      p in Ports(d') && Wish(d', p) == Wish(d, p) && Tokens(d', p) == Tokens(d, p)
  }

  /** The other ports keep their order, and `port` keeps its turn, or gets the last one when it had none. */
  ghost predicate TurnsAsBefore(d: Descriptor, d': Descriptor, port: Port)
  {
    d.Multiple? ==>
      && d'.Multiple?
      && RemoveFirst(d'.active, port) == RemoveFirst(d.active, port)
      && (port in d.active && port in d'.active ==> d'.active == d.active)
      && (port !in d.active && port in d'.active ==> d'.active == d.active + [port])
  }

  /** An unattached connected descriptor has its initial tokens. */
  ghost predicate Unspent(d: Descriptor)
  {
    d.Single? && d.port == ILLEGAL_PORT ==> d.tokens == SINGLE_TOKENS
  }

  /** `port` is attached and waits for `events`; a new one starts with the initial tokens, an old one keeps its own. */
  ghost predicate Listens(d: Descriptor, d': Descriptor, port: Port, events: Events)
  {
    && d'.Single? == d.Single? && Ports(d') == Ports(d) + {port}
    && Wish(d', port) == events
    && Tokens(d', port) == (if port in Ports(d) then Tokens(d, port) else InitialTokens(d))
    && OthersAsBefore(d, d', port) && TurnsAsBefore(d, d', port)
  }

  lemma SetMaskListens(d: Descriptor, port: Port, events: Events)
    requires Valid(d) && Unspent(d) && port != ILLEGAL_PORT
    requires if d.Single? then d.port == ILLEGAL_PORT || d.port == port else events == 0 || events == IN_EVENT
    ensures Listens(d, SetPortAndMask(d, port, events), port, events)
  {
    if d.Multiple? {
      RemoveFirstExact(d.active, port);
      RemoveOnlyLast(d.active, port);
    }
  }

  lemma {:induction false} RemoveOnlyLast<T>(s: seq<T>, x: T)
    ensures x !in s ==> RemoveFirst(s + [x], x) == s
  {
    if s != [] && x !in s {
      assert (s + [x])[1..] == s[1..] + [x];
      RemoveOnlyLast(s[1..], x);
    }
  }

  /** `port` has `count` tokens more; nobody else's and nobody's wishes change. */
  ghost predicate Earns(d: Descriptor, d': Descriptor, port: Port, count: nat)
  {
    && d'.Single? == d.Single? && Ports(d') == Ports(d) && port in Ports(d)
    && Wish(d', port) == Wish(d, port) && Tokens(d', port) == Tokens(d, port) + count
    && OthersAsBefore(d, d', port) && TurnsAsBefore(d, d', port)
  }

  lemma ReturnEarns(d: Descriptor, port: Port, count: nat)
    requires Valid(d) && port in Ports(d)
    ensures Earns(d, ReturnTokensTo(d, port, count), port, count)
  {
    if d.Multiple? {
      RemoveOnlyLast(d.active, port);
    }
  }

  /** `port` is gone, the others are as before. */
  ghost predicate Leaves(d: Descriptor, d': Descriptor, port: Port)
  {
    && d'.Single? == d.Single? && Ports(d') == Ports(d) - {port}
    && OthersAsBefore(d, d', port) && TurnsAsBefore(d, d', port)
  }

  lemma RemoveLeaves(d: Descriptor, port: Port)
    requires Valid(d) && (d.Single? ==> d.port == ILLEGAL_PORT || d.port == port)
    ensures Leaves(d, RemovePort(d, port), port)
  {
    if d.Multiple? {
      RemoveFirstExact(d.active, port);
      assert port !in RemoveFirst(d.active, port);
    }
  }

  /** A new descriptor has no ports; the first one to come will have the initial tokens. */
  lemma NewIsUnspent(listening: bool)
    ensures
      var d := NewDescriptor(listening);
      Valid(d) && Unspent(d) && Ports(d) == {} && (d.Multiple? <==> listening)
  {
  }
}
