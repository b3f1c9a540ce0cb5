/** The circular doubly linked list behind `active_readers_`, refining a sequence. */
module CircularLists {

  class Entry<T> {
    const t: T
    var next: Entry?<T>
    var prev: Entry?<T>

    constructor (t: T)
      ensures this.t == t
    {
      this.t := t;
      next, prev := null, null;
    }
  }

  /** `s` without the first occurrence of `x`; `s` itself when `x` does not occur. */
  function RemoveFirst<T(==)>(s: seq<T>, x: T): (r: seq<T>)
    ensures x !in s ==> r == s
    ensures x in s ==> |r| == |s| - 1
  {
    if s == [] then [] else if s[0] == x then s[1..] else [s[0]] + RemoveFirst(s[1..], x)
  }

  lemma {:induction false} RemoveFirstAt<T>(s: seq<T>, x: T, k: nat)
    requires k < |s| && s[k] == x && x !in s[..k]
    ensures RemoveFirst(s, x) == s[..k] + s[k + 1..]
  {
    if k > 0 {
      assert s[0] == s[..k][0];
      assert s[1..][..k - 1] == s[..k][1..];
      RemoveFirstAt(s[1..], x, k - 1);
      assert s[..k] + s[k + 1..] == [s[0]] + (s[1..][..k - 1] + s[1..][k..]);
    }
  }

  class CircularLinkedList<T(==)> {
    var head: Entry?<T>
    // The ring in traversal order, starting at the head.
    ghost var nodes: seq<Entry<T>>
    ghost var repr: set<object>

    ghost predicate Valid()
      reads this, repr
    {
      && this in repr && (forall n :: n in nodes ==> n in repr)
      && (head == null <==> nodes == [])
      && (nodes != [] ==> head == nodes[0])
      && Ring(nodes)
    }

    static ghost predicate Ring(nodes: seq<Entry<T>>)
      reads nodes
    {
      && (forall i, j :: 0 <= i < j < |nodes| ==> nodes[i] != nodes[j])
      && (forall i {:trigger nodes[i].next} :: 0 <= i < |nodes| - 1 ==> nodes[i].next == nodes[i + 1])
      && (forall i {:trigger nodes[i].prev} :: 0 < i < |nodes| ==> nodes[i].prev == nodes[i - 1])
      && (nodes != [] ==> nodes[|nodes| - 1].next == nodes[0] && nodes[0].prev == nodes[|nodes| - 1])
    }

    static ghost function Values(nodes: seq<Entry<T>>): (s: seq<T>)
      ensures |s| == |nodes| && forall i :: 0 <= i < |s| ==> s[i] == nodes[i].t
    {
      seq(|nodes|, i requires 0 <= i < |nodes| => nodes[i].t)
    }

    ghost function Contents(): (s: seq<T>)
      reads this
    {
      Values(nodes)
    }

    constructor ()
      ensures Valid() && fresh(repr) && Contents() == []
    {
      head := null;
      nodes := [];
      repr := {this};
    }

    method Add(t: T) returns (wasEmpty: bool)
      requires Valid()
      modifies repr
      ensures Valid()
      ensures fresh(repr - old(repr))
      ensures Contents() == old(Contents()) + [t]
      ensures wasEmpty == (old(Contents()) == [])
    {
      var e := new Entry(t);
      ghost var n := |nodes|;
      ghost var ring := nodes + [e];
      assert Values(ring) == Values(nodes) + [t];
      if head == null {
        e.next := e;
        e.prev := e;
        head := e;
        wasEmpty := true;
        assert ring == [e];
        assert Ring(ring);
      } else {
        e.prev := head.prev;
        e.next := head;
        e.prev.next := e;
        head.prev := e;
        wasEmpty := false;
        assert Ring(ring);
      }
      nodes := ring;
      repr := repr + {e};
    }

    method RemoveHead() returns (removed: T)
      requires Valid() && Contents() != []
      modifies repr
      ensures Valid()
      ensures repr == old(repr)
      ensures removed == old(Contents())[0] && Contents() == old(Contents())[1..]
    {
      var e := head;
      if e.next == e {
        head := null;
      } else {
        e.prev.next := e.next;
        e.next.prev := e.prev;
        head := e.next;
      }
      removed := e.t;
      nodes := nodes[1..];
    }

    method Remove(item: T)
      requires Valid()
      modifies repr
      ensures Valid()
      ensures repr == old(repr)
      ensures Contents() == RemoveFirst(old(Contents()), item)
    {
      if head == null {
        return;
      } else if head == head.next {
        assert |nodes| == 1;
        if head.t == item {
          head := null;
          nodes := [];
          return;
        }
      } else {
        var current := head;
        ghost var k := 0;
        while true
          invariant 1 < |nodes| && k < |nodes| && current == nodes[k]
          invariant forall i :: 0 <= i < k ==> nodes[i].t != item
          decreases |nodes| - k
        {
          if current.t == item {
            RemoveFirstAt(Contents(), item, k);
            Unlink(current, k);
            return;
          }
          current := current.next;
          k := k + 1;
          if current == head {
            break;
          }
        }
      }
    }

    /** The links of `nodes` skip node `k` in both directions. */
    static ghost predicate Bypassed(nodes: seq<Entry<T>>, k: nat)
      requires 1 < |nodes| && k < |nodes|
      reads nodes
    {
      var n := |nodes|;
      var first, last := if k == 0 then 1 else 0, if k == n - 1 then n - 2 else n - 1;
      && (forall i, j :: 0 <= i < j < n ==> nodes[i] != nodes[j])
      && (forall i {:trigger nodes[i].next} :: 0 <= i < n - 1 && i != k && i + 1 != k ==> nodes[i].next == nodes[i + 1])
      && (forall i {:trigger nodes[i].prev} :: 0 < i < n && i != k && i - 1 != k ==> nodes[i].prev == nodes[i - 1])
      && (0 < k < n - 1 ==> nodes[k - 1].next == nodes[k + 1] && nodes[k + 1].prev == nodes[k - 1])
      && nodes[last].next == nodes[first] && nodes[first].prev == nodes[last]
    }

    static lemma BypassedRing(nodes: seq<Entry<T>>, k: nat)
      requires 1 < |nodes| && k < |nodes| && Bypassed(nodes, k)
      ensures Ring(nodes[..k] + nodes[k + 1..])
    {
      var ring := nodes[..k] + nodes[k + 1..];
      assert forall i :: 0 <= i < |ring| ==> ring[i] == nodes[if i < k then i else i + 1];
    }

    /** The relinking at a match: bypass `current`, moving the head on when it is the head. */
    method Unlink(current: Entry<T>, ghost k: nat)
      requires Valid() && 1 < |nodes| && k < |nodes| && current == nodes[k]
      modifies repr
      ensures Valid() && repr == old(repr)
      ensures Contents() == old(Contents())[..k] + old(Contents())[k + 1..]
    {
      ghost var ring := nodes[..k] + nodes[k + 1..];
      assert Values(ring) == Values(nodes)[..k] + Values(nodes)[k + 1..];
      var next := current.next;
      var prev := current.prev;
      assert prev == nodes[if k == 0 then |nodes| - 1 else k - 1];
      assert next == nodes[if k == |nodes| - 1 then 0 else k + 1];
      prev.next := next;
      next.prev := prev;
      if current == head {
        head := head.next;
      }
      BypassedRing(nodes, k);
      nodes := ring;
    }

    /** Removes every element in list order; returns what the clear callback sees. */
    method RemoveAll() returns (cleared: seq<T>)
      requires Valid()
      modifies repr
      ensures Valid() && repr == old(repr) && Contents() == []
      ensures cleared == old(Contents())
    {
      cleared := [];
      ghost var k := 0;
      while head != null
        invariant Valid() && k <= |old(nodes)|
        invariant repr == old(repr)
        invariant |nodes| == |old(nodes)| - k && Contents() == old(Contents())[k..]
        invariant cleared == old(Contents())[..k]
        decreases |nodes|
      {
        var t := RemoveHead();
        cleared := cleared + [t];
        k := k + 1;
      }
    }

    method Head() returns (t: T)
      requires Valid() && Contents() != []
      ensures t == Contents()[0]
    {
      t := head.t;
    }

    method HasHead() returns (b: bool)
      requires Valid()
      ensures b == (Contents() != [])
    {
      b := head != null;
    }

    method Rotate()
      requires Valid()
      modifies this
      ensures Valid()
      ensures Contents() == Rotated(old(Contents()))
      ensures repr == old(repr)
    {
      if head != null {
        head := head.next;
        nodes := nodes[1..] + [nodes[0]];
      }
    }
  }

  function Rotated<T>(s: seq<T>): (r: seq<T>)
    ensures |r| == |s|
  {
    if s == [] then [] else s[1..] + [s[0]]
  }
}
