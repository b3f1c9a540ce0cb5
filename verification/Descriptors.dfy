/** The descriptor objects: port entries shared between a map and the ring of active readers. */
module Descriptors {
  import opened Flags
  import opened CircularLists
  import Spec = DescriptorSpec

  /** One listener of a shared descriptor; the map and the ring point to the same object. */
  class PortEntry {
    const dartPort: Port
    var isReading: bool
    var tokens: int

    constructor (port: Port, reading: bool)
      ensures dartPort == port && isReading == reading && tokens == Spec.LISTENER_TOKENS
    {
      dartPort := port;
      isReading := reading;
      tokens := Spec.LISTENER_TOKENS;
    }

    function State(): (s: Spec.PortState)
      reads this
    {
      Spec.PortState(isReading, tokens)
    }

    predicate IsReady()
      reads this
    {
      State().Ready()
    }
  }

  ghost function PortsOf(es: seq<PortEntry>): (ps: seq<Port>)
    ensures |ps| == |es| && forall i :: 0 <= i < |es| ==> ps[i] == es[i].dartPort
  {
    seq(|es|, i requires 0 <= i < |es| => es[i].dartPort)
  }

  lemma {:induction false} RemoveFirstPorts(es: seq<PortEntry>, e: PortEntry)
    requires forall x :: x in es && x.dartPort == e.dartPort ==> x == e
    ensures PortsOf(RemoveFirst(es, e)) == RemoveFirst(PortsOf(es), e.dartPort)
    ensures forall x :: x in RemoveFirst(es, e) ==> x in es
  {
    if es != [] {
      assert es[0] in es;
      assert PortsOf(es)[1..] == PortsOf(es[1..]);
      RemoveFirstPorts(es[1..], e);
      if es[0] != e {
        assert PortsOf([es[0]] + RemoveFirst(es[1..], e)) == [es[0].dartPort] + PortsOf(RemoveFirst(es[1..], e));
      }
    }
  }

  lemma HasFirst<T>(s: seq<T>)
    ensures s == [] || s[0] in s
  {
  }

  /** The entries of `entries`, none of them freed before, are what was freed. */
  ghost predicate AllFreed(freed: set<PortEntry>, before: set<PortEntry>, entries: map<Port, PortEntry>)
  {
    && (forall p :: p in entries ==> entries[p] !in before && entries[p] in freed)
    && (forall e :: e in freed ==> e in before || exists p :: p in entries && entries[p] == e)
  }

  class DescriptorInfoMultiple {
    const activeReaders: CircularLinkedList<PortEntry>
    var tokensMap: map<Port, PortEntry>
    // The abstract state of every entry in the map.
    ghost var states: map<Port, Spec.PortState>
    ghost var repr: set<object>
    // Entries that were deleted; no live pointer may lead to one of them.
    ghost var freed: set<PortEntry>

    ghost predicate Valid()
      reads this, repr
    {
      && this in repr && activeReaders in repr && activeReaders in activeReaders.repr && activeReaders.repr <= repr
      && this !in activeReaders.repr
      && activeReaders.Valid() && states.Keys == tokensMap.Keys
      && (forall p :: p in tokensMap ==>
            && tokensMap[p] in repr && tokensMap[p] !in activeReaders.repr
            && tokensMap[p].dartPort == p && tokensMap[p] !in freed
            && states[p] == tokensMap[p].State())
      && (forall e :: e in activeReaders.Contents() ==> e.dartPort in tokensMap && tokensMap[e.dartPort] == e)
    }

    ghost function Active(): (ps: seq<Port>)
      reads this, repr
      requires Valid()
    {
      PortsOf(activeReaders.Contents())
    }

    ghost function View(): (d: Spec.Descriptor)
      reads this, repr
      requires Valid()
      ensures d == Spec.Multiple(states, Active())
    {
      Spec.Multiple(states, Active())
    }

    constructor ()
      ensures Valid() && fresh(repr) && freed == {} && View() == Spec.NewDescriptor(true)
    {
      activeReaders := new CircularLinkedList<PortEntry>();
      tokensMap, states := map[], map[];
      freed := {};
      new;
      repr := {this} + activeReaders.repr;
    }

    function Mask(): (m: Events)
      reads this, repr
      requires Valid()
      ensures m == Spec.Mask(View())
    {
      if activeReaders.head != null then IN_EVENT else 0
    }

    method Activate(e: PortEntry)
      requires Valid() && e.dartPort in tokensMap && tokensMap[e.dartPort] == e
      modifies repr
      ensures Valid() && fresh(repr - old(repr)) && freed == old(freed) && tokensMap == old(tokensMap)
      ensures states == old(states) && Active() == old(Active()) + [e.dartPort]
    {
      hide CircularLinkedList.Valid;
      assert PortsOf(activeReaders.Contents() + [e]) == PortsOf(activeReaders.Contents()) + [e.dartPort];
      var _ := activeReaders.Add(e);
      repr := repr + activeReaders.repr;
    }

    method Deactivate(e: PortEntry)
      requires Valid() && e.dartPort in tokensMap && tokensMap[e.dartPort] == e
      modifies activeReaders.repr
      ensures Valid() && tokensMap == old(tokensMap)
      ensures states == old(states) && Active() == RemoveFirst(old(Active()), e.dartPort)
    {
      hide CircularLinkedList.Valid;
      RemoveFirstPorts(activeReaders.Contents(), e);
      activeReaders.Remove(e);
    }

    /** A port that was not attached yet. */
    method Attach(port: Port, reading: bool) returns (e: PortEntry)
      requires Valid() && port !in tokensMap
      modifies this
      ensures Valid() && repr == old(repr) + {e} && fresh(e) && freed == old(freed)
      ensures port in tokensMap && tokensMap[port] == e
      ensures states == old(states)[port := Spec.PortState(reading, Spec.LISTENER_TOKENS)] && Active() == old(Active())
    {
      hide CircularLinkedList.Valid;
      e := new PortEntry(port, reading);
      tokensMap := tokensMap[port := e];
      states := states[port := e.State()];
      repr := repr + {e};
    }

    /** Writes the fields of an entry. */
    method Assign(e: PortEntry, reading: bool, tokens: int)
      requires Valid() && e.dartPort in tokensMap && tokensMap[e.dartPort] == e
      modifies e, `states
      ensures Valid()
      ensures states == old(states)[e.dartPort := Spec.PortState(reading, tokens)] && Active() == old(Active())
    {
      hide CircularLinkedList.Valid;
      e.isReading := reading;
      e.tokens := tokens;
      states := states[e.dartPort := e.State()];
    }

    method SetPortAndMask(port: Port, mask: Events)
      requires Valid()
      modifies repr
      ensures Valid() && fresh(repr - old(repr)) && freed == old(freed)
      ensures View() == Spec.SetPortAndMask(old(View()), port, mask)
    {
      hide CircularLinkedList.Valid;
      if port !in tokensMap {
        var e := Attach(port, mask == IN_EVENT);
        if e.IsReady() {
          Activate(e);
        }
      } else {
        var e := tokensMap[port];
        var wasReady := e.IsReady();
        Assign(e, mask == IN_EVENT, e.tokens);
        var isReady := e.IsReady();
        if wasReady && !isReady {
          Deactivate(e);
        } else if !wasReady && isReady {
          Activate(e);
        }
      }
    }

    /** Takes the entry out of the map and deletes it; nothing live points to it any more. */
    method Delete(e: PortEntry)
      requires Valid() && e.dartPort in tokensMap && tokensMap[e.dartPort] == e && e !in activeReaders.Contents()
      modifies this
      ensures Valid() && repr == old(repr) && e !in old(freed) && freed == old(freed) + {e}
      ensures tokensMap == old(tokensMap) - {e.dartPort}
      ensures states == old(states) - {e.dartPort} && Active() == old(Active())
    {
      hide CircularLinkedList.Valid;
      tokensMap, states := tokensMap - {e.dartPort}, states - {e.dartPort};
      freed := freed + {e};
    }

    method RemovePort(port: Port)
      requires Valid() && Spec.Valid(View())
      modifies repr
      ensures Valid() && repr == old(repr)
      ensures freed == old(freed) + (if port in old(tokensMap) then {old(tokensMap)[port]} else {})
      ensures View() == Spec.RemovePort(old(View()), port)
    {
      hide CircularLinkedList.Valid;
      if port in tokensMap {
        var e := tokensMap[port];
        if e.IsReady() {
          Spec.RemoveFirstExact(Active(), port);
          Deactivate(e);
        }
        NotActive(e);
        Delete(e);
      }
    }

    lemma NotActive(e: PortEntry)
      requires Valid() && e.dartPort !in Active()
      ensures e !in activeReaders.Contents()
    {
      forall i | 0 <= i < |Active()|
        ensures activeReaders.Contents()[i] != e
      {
        assert Active()[i] in Active();
      }
    }

    method Discard(e: PortEntry)
      requires Valid() && Spec.NoDuplicates(Active()) && e.dartPort in tokensMap && tokensMap[e.dartPort] == e
      modifies repr
      ensures Valid() && repr == old(repr) && e !in old(freed) && freed == old(freed) + {e}
      ensures tokensMap == old(tokensMap) - {e.dartPort} && Spec.NoDuplicates(Active())
    {
      hide CircularLinkedList.Valid;
      Spec.RemoveFirstExact(Active(), e.dartPort);
      Deactivate(e);
      NotActive(e);
      Delete(e);
    }

    lemma NothingLeft()
      requires Valid() && tokensMap.Keys == {}
      ensures activeReaders.Contents() == []
    {
      HasFirst(activeReaders.Contents());
    }

    /** Deletes every entry once; the final sweep over the ring finds nothing left to delete. */
    method RemoveAllPorts()
      requires Valid() && Spec.Valid(View())
      modifies repr
      ensures Valid() && repr == old(repr)
      ensures tokensMap == map[] && AllFreed(freed, old(freed), old(tokensMap))
      ensures View() == Spec.RemoveAllPorts(old(View()))
    {
      hide CircularLinkedList.Valid;
      ghost var all := tokensMap;
      while tokensMap.Keys != {}
        invariant Valid() && repr == old(repr)
        invariant Spec.NoDuplicates(Active())
        invariant forall p :: p in tokensMap ==> p in all && tokensMap[p] == all[p]
        invariant forall p :: p in all && p !in tokensMap ==> all[p] in freed
        invariant forall e :: e in freed ==> e in old(freed) || exists p :: p in all && all[p] == e
        decreases tokensMap.Keys
      {
        var p :| p in tokensMap.Keys;
        Discard(tokensMap[p]);
      }
      NothingLeft();
      var cleared := activeReaders.RemoveAll();
      assert cleared == [];
      assert Active() == [];
    }

    /** Drops the head of the ring when its tokens are spent, moves it to the end otherwise. */
    method PassOn(drop: bool)
      requires Valid() && Active() != []
      modifies activeReaders.repr
      ensures Valid() && states == old(states)
      ensures Active() == if drop then old(Active())[1..] else Rotated(old(Active()))
    {
      hide CircularLinkedList.Valid;
      ghost var c := activeReaders.Contents();
      assert PortsOf(c[1..]) == PortsOf(c)[1..];
      assert PortsOf(c[1..] + [c[0]]) == PortsOf(c)[1..] + [PortsOf(c)[0]];
      if drop {
        var _ := activeReaders.RemoveHead();
      } else {
        activeReaders.Rotate();
      }
    }

    /** The head spends a token and either leaves the ring or goes to its end. */
    method ServeHead() returns (port: Port)
      requires Valid() && Active() != []
      modifies repr
      ensures Valid() && repr == old(repr) && freed == old(freed)
      ensures port == old(Active())[0] && port in old(states)
      ensures var e := old(states)[port].(tokens := old(states)[port].tokens - 1);
              && states == old(states)[port := e]
              && Active() == if e.tokens <= 0 then old(Active())[1..] else Rotated(old(Active()))
    {
      hide CircularLinkedList.Valid;
      var e := activeReaders.Head();
      assert e in activeReaders.Contents();
      port := e.dartPort;
      Assign(e, e.isReading, e.tokens - 1);
      PassOn(e.tokens <= 0);
    }

    method HasReady() returns (some: bool)
      requires Valid()
      ensures some <==> Active() != []
    {
      some := activeReaders.HasHead();
    }

    lemma KeysAgree()
      requires Valid()
      ensures states.Keys == tokensMap.Keys
    {
    }

    method NextNotifyDartPort() returns (port: Port)
      requires Valid()
      modifies repr
      ensures Valid() && repr == old(repr) && freed == old(freed)
      ensures View() == Spec.NextNotify(old(View())).0 && port == Spec.NextNotify(old(View())).1
    {
      hide Valid, Active, CircularLinkedList.Valid;
      var some := HasReady();
      if some {
        port := ServeHead();
      } else {
        port := ILLEGAL_PORT;
      }
    }

    /** One port of a broadcast: it spends a token and leaves the ring when that was its last. */
    method Charge(p: Port, ghost active: seq<Port>)
      requires Valid() && p in tokensMap && Spec.NoDuplicates(active) && Active() == Spec.StillReady(states, active)
      modifies repr
      ensures Valid() && repr == old(repr) && freed == old(freed) && tokensMap == old(tokensMap)
      ensures states == old(states)[p := old(states)[p].(tokens := old(states)[p].tokens - 1)]
      ensures Active() == Spec.StillReady(states, active)
    {
      hide CircularLinkedList.Valid;
      var e := tokensMap[p];
      var wasReady := e.IsReady();
      Spec.StillReadyStep(states, active, p, Spec.PortState(e.isReading, e.tokens - 1));
      Assign(e, e.isReading, e.tokens - 1);
      if wasReady && e.tokens <= 0 {
        Deactivate(e);
      }
    }

    /** Posts to every attached port, in the order of the map, and takes a token from each. */
    method NotifyAllDartPorts() returns (notified: set<Port>)
      requires Valid() && Spec.Valid(View())
      modifies repr
      ensures Valid() && repr == old(repr) && freed == old(freed)
      ensures View() == Spec.NotifyAll(old(View())) && notified == Spec.Ports(old(View()))
    {
      hide Valid, Active, CircularLinkedList.Valid, Spec.StillReady;
      KeysAgree();
      notified := {};
      ghost var active, before, taken := Active(), states, Spec.TakeOneEach(states);
      Spec.AllStillReady(states, active);
      while tokensMap.Keys - notified != {}
        invariant Valid() && repr == old(repr) && freed == old(freed) && tokensMap == old(tokensMap)
        invariant notified <= tokensMap.Keys && states.Keys == before.Keys
        invariant forall p :: p in states ==> states[p] == if p in notified then taken[p] else before[p]
        invariant Active() == Spec.StillReady(states, active)
        decreases tokensMap.Keys - notified
      {
        var p :| p in tokensMap.Keys - notified;
        Charge(p, active);
        notified := notified + {p};
      }
      assert notified == states.Keys;
      assert states == taken;
    }

    method ReturnTokens(port: Port, count: nat)
      requires Valid() && port in tokensMap
      modifies repr
      ensures Valid() && fresh(repr - old(repr)) && freed == old(freed)
      ensures View() == Spec.ReturnTokensTo(old(View()), port, count)
    {
      hide CircularLinkedList.Valid;
      var e := tokensMap[port];
      var wasReady := e.IsReady();
      Assign(e, e.isReading, e.tokens + count);
      if !wasReady && e.IsReady() {
        Activate(e);
      }
    }
  }

  /** A descriptor connected to one port. */
  class DescriptorInfoSingle {
    var port: Port
    var tokens: int
    var mask: Events

    ghost function View(): (d: Spec.Descriptor)
      reads this
    {
      Spec.Single(port, tokens, mask)
    }

    constructor ()
      ensures View() == Spec.NewDescriptor(false)
    {
      port, tokens, mask := ILLEGAL_PORT, Spec.SINGLE_TOKENS, 0;
    }

    function Mask(): (m: Events)
      reads this
      ensures m == Spec.Mask(View())
    {
      if tokens <= 0 then 0 else mask
    }

    method SetPortAndMask(port: Port, mask: Events)
      modifies this
      ensures View() == Spec.SetPortAndMask(old(View()), port, mask)
    {
      this.port := port;
      this.mask := mask;
    }

    method RemovePort(port: Port)
      modifies this
      ensures View() == Spec.RemovePort(old(View()), port)
    {
      this.port := ILLEGAL_PORT;
      mask := 0;
    }

    method NextNotifyDartPort() returns (p: Port)
      modifies this
      ensures View() == Spec.NextNotify(old(View())).0 && p == Spec.NextNotify(old(View())).1
    {
      tokens := tokens - 1;
      p := port;
    }

    method NotifyAllDartPorts() returns (notified: set<Port>)
      modifies this
      ensures View() == Spec.NotifyAll(old(View())) && notified == Spec.Ports(old(View()))
    {
      notified := if port != ILLEGAL_PORT then {port} else {};
      tokens := tokens - 1;
    }

    method ReturnTokens(port: Port, count: nat)
      modifies this
      ensures View() == Spec.ReturnTokensTo(old(View()), port, count)
    {
      tokens := tokens + count;
    }
  }

  /** A descriptor of either kind behind the common interface; every operation dispatches on the kind. */
  class DescriptorInfo {
    const fd: int
    const single: DescriptorInfoSingle?
    const multiple: DescriptorInfoMultiple?
    ghost var view: Spec.Descriptor
    ghost var repr: set<object>

    ghost predicate Valid()
      reads this, repr
    {
      && this in repr && Spec.Valid(view)
      && (single == null <==> multiple != null)
      && (single != null ==> single in repr && view == single.View())
      && (multiple != null ==>
            && multiple in repr && multiple.repr <= repr && this !in multiple.repr
            && multiple.Valid() && view == multiple.View())
    }

    constructor (fd: int, listening: bool)
      ensures Valid() && fresh(repr) && this.fd == fd && view == Spec.NewDescriptor(listening)
    {
      this.fd := fd;
      if listening {
        single := null;
        multiple := new DescriptorInfoMultiple();
      } else {
        single := new DescriptorInfoSingle();
        multiple := null;
      }
      view := Spec.NewDescriptor(listening);
      new;
      repr := {this} + (if single != null then {single} else multiple.repr);
    }

    predicate IsAttached(port: Port)
      reads this, repr
      requires Valid()
      ensures IsAttached(port) == (port in Spec.Ports(view))
    {
      if single != null then port != ILLEGAL_PORT && single.port == port else port in multiple.tokensMap
    }

    predicate IsListeningSocket()
      reads this, repr
      requires Valid()
      ensures IsListeningSocket() == view.Multiple?
    {
      multiple != null
    }

    function Mask(): (m: Events)
      requires Valid()
      reads this, repr
      ensures m == Spec.Mask(view)
    {
      if single != null then single.Mask() else multiple.Mask()
    }

    method SetPortAndMask(port: Port, mask: Events)
      requires Valid() && port != ILLEGAL_PORT
      modifies repr
      ensures Valid() && fresh(repr - old(repr)) && view == Spec.SetPortAndMask(old(view), port, mask)
    {
      Spec.SetPortAndMaskValid(view, port, mask);
      view := Spec.SetPortAndMask(view, port, mask);
      if single != null {
        single.SetPortAndMask(port, mask);
      } else {
        multiple.SetPortAndMask(port, mask);
        repr := repr + multiple.repr;
      }
    }

    method RemovePort(port: Port)
      requires Valid()
      modifies repr
      ensures Valid() && fresh(repr - old(repr)) && view == Spec.RemovePort(old(view), port)
    {
      if single != null {
        single.RemovePort(port);
      } else {
        Spec.RemovePortValid(view, port);
        multiple.RemovePort(port);
      }
      view := Spec.RemovePort(view, port);
    }

    /** The destructor: a listening socket deletes the entries of the ports still attached, each once. */
    method Destroy()
      requires Valid()
      modifies repr
      ensures Valid() && repr == old(repr)
      ensures view == if old(view).Multiple? then Spec.RemoveAllPorts(old(view)) else old(view)
      ensures multiple != null ==>
                multiple.tokensMap == map[] && AllFreed(multiple.freed, old(multiple.freed), old(multiple.tokensMap))
    {
      if multiple != null {
        multiple.RemoveAllPorts();
        view := Spec.RemoveAllPorts(view);
      }
    }

    method NextNotifyDartPort() returns (port: Port)
      requires Valid() && (view.Multiple? ==> Mask() != 0)
      modifies repr
      ensures Valid() && fresh(repr - old(repr))
      ensures view == Spec.NextNotify(old(view)).0 && port == Spec.NextNotify(old(view)).1
    {
      ghost var before := view;
      view := Spec.NextNotify(view).0;
      if single != null {
        port := single.NextNotifyDartPort();
      } else {
        Spec.NextNotifyValid(before);
        port := multiple.NextNotifyDartPort();
      }
    }

    method NotifyAllDartPorts() returns (notified: set<Port>)
      requires Valid()
      modifies repr
      ensures Valid() && fresh(repr - old(repr))
      ensures view == Spec.NotifyAll(old(view)) && notified == Spec.Ports(old(view))
    {
      Spec.NotifyAllValid(view);
      if single != null {
        notified := single.NotifyAllDartPorts();
      } else {
        notified := multiple.NotifyAllDartPorts();
      }
      view := Spec.NotifyAll(view);
    }

    method ReturnTokens(port: Port, count: nat)
      requires Valid() && port in Spec.Ports(view)
      modifies repr
      ensures Valid() && fresh(repr - old(repr)) && view == Spec.ReturnTokensTo(old(view), port, count)
    {
      Spec.ReturnTokensValid(view, port, count);
      view := Spec.ReturnTokensTo(view, port, count);
      if single != null {
        single.ReturnTokens(port, count);
      } else {
        multiple.ReturnTokens(port, count);
        repr := repr + multiple.repr;
      }
    }
  }
}
