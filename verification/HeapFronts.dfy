/** Heap order is exactly what keeps the earliest deadline in front, whatever is set and expires later. */
module HeapFronts {
  import opened HeapSpec

  /** What may happen to a queue besides a cancellation. */
  datatype Event<V> = Set(value: V, deadline: int) | Expire

  ghost predicate EventsOk<V>(es: seq<Event<V>>)
  {
    forall i :: 0 <= i < |es| && es[i].Set? ==> es[i].deadline >= 0
  }

  function Apply<V(==)>(h: seq<Entry<V>>, e: Event<V>): (r: seq<Entry<V>>)
  {
    match e
    case Set(v, deadline) => UpdateTimeout(h, v, deadline)
    case Expire => if h == [] then h else RemoveAt(h, 0)
  }

  function Continue<V(==)>(h: seq<Entry<V>>, es: seq<Event<V>>): (r: seq<Entry<V>>)
    decreases es
  {
    if es == [] then h else Continue(Apply(h, es[0]), es[1..])
  }

  ghost predicate FrontIsMinimum<V>(h: seq<Entry<V>>)
  {
    forall i :: 0 <= i < |h| ==> h[0].priority <= h[i].priority
  }

  lemma {:induction false} HeapKeepsFront<V>(h: seq<Entry<V>>, es: seq<Event<V>>)
    requires Heap(h) && EventsOk(es)
    ensures FrontIsMinimum(Continue(h, es))
    decreases es
  {
    if es == [] {
      forall i | 0 <= i < |h|
        ensures h[0].priority <= h[i].priority
      {
        HeapMinimum(h, i);
      }
    } else {
      match es[0] {
        case Set(v, deadline) => UpdateTimeoutKeepsHeapIff(h, v, deadline);
        case Expire => if h != [] { RemoveAtKeepsHeapIff(h, 0); }
      }
      HeapKeepsFront(Apply(h, es[0]), es[1..]);
    }
  }

  // ---------- a misplaced entry comes to light ----------

  /** Entry `a` is somewhere above entry `b`. */
  ghost predicate Above(a: nat, b: nat)
  {
    b > 0 && (Parent(b) == a || Above(a, Parent(b)))
  }

  lemma {:induction false} AboveIsLess(a: nat, b: nat)
    requires Above(a, b)
    ensures a < b
  {
    if Parent(b) != a {
      AboveIsLess(a, Parent(b));
    }
  }

  lemma {:induction false} AboveBelow(i: nat, m: nat, b: nat)
    requires m > 0 && Parent(m) == i && Above(m, b)
    ensures Above(i, b)
  {
    if Parent(b) != m {
      AboveBelow(i, m, Parent(b));
    }
  }

  /** Sinking the greatest entry leaves an entry above another that was above it. */
  lemma {:induction false} SinkKeepsAbove<V>(g: seq<Entry<V>>, i: nat, a: nat, b: nat) returns (a': nat, b': nat)
    requires i < |g| && a < |g| && b < |g| && a != i && b != i && Above(a, b)
    ensures
      var r := BubbleDown(g, i);
      a' < |g| && b' < |g| && Above(a', b') && r[a'] == g[a] && r[b'] == g[b]
    decreases |g| - i
  {
    var m := SmallestOf(g, i);
    if m == i {
      return a, b;
    }
    assert Parent(m) == i;
    AboveIsLess(a, b);
    if a == m {
      AboveBelow(i, m, b);
    } else if b == m {
      assert Above(a, i);
    }
    var a1, b1 := if a == m then i else a, if b == m then i else b;
    var g1 := Swap(g, i, m);
    assert g1[a1] == g[a] && g1[b1] == g[b];
    a', b' := SinkKeepsAbove(g1, m, a1, b1);
  }

  ghost function Early<V>(h: seq<Entry<V>>, big: int): (s: set<Entry<V>>)
  {
    set e | e in h && e.priority < big
  }

  /** Putting the front off to the latest time: the misplaced pair stays misplaced and one early entry fewer is left. */
  lemma PutOff<V>(h: seq<Entry<V>>, big: int, a: nat, b: nat) returns (a': nat, b': nat)
    requires Unique(h) && big >= 0 && a < |h| && b < |h| && 0 < a && Above(a, b) && h[0].priority < big
    ensures
      var g := UpdateTimeout(h, h[0].value, big);
      && Unique(g) && Early(g, big) == Early(h, big) - {h[0]} && h[0] in Early(h, big)
      && a' < |g| && b' < |g| && Above(a', b') && g[a'] == h[a] && g[b'] == h[b]
  {
    var v := h[0].value;
    OffsetIsUnique(h, v, 0);
    UpdateTimeoutEntries(h, v, big);
    var g0 := h[0 := h[0].(priority := big)];
    a', b' := SinkKeepsAbove(g0, 0, a, b);
    assert h[0] in h && UpdateTimeout(h, v, big) == BubbleDown(g0, 0);
    assert forall e :: e in h ==> (e.value == v <==> e == h[0]);
    var early, left := Early(h, big), Early(UpdateTimeout(h, v, big), big);
    assert forall e :: e in left <==> e in early && e != h[0];
  }

  /** An entry below a later one is behind it in front sooner or later. */
  lemma {:induction false} Exposed<V>(h: seq<Entry<V>>, big: int, a: nat, b: nat) returns (es: seq<Event<V>>)
    requires Unique(h) && big >= 0 && a < |h| && b < |h| && Above(a, b) && h[b].priority < h[a].priority < big
    ensures EventsOk(es) && !FrontIsMinimum(Continue(h, es))
    decreases |Early(h, big)|
  {
    if FrontIsMinimum(h) {
      assert h[0].priority <= h[b].priority;
      var a', b' := PutOff(h, big, a, b);
      var rest := Exposed(UpdateTimeout(h, h[0].value, big), big, a', b');
      es := [Set(h[0].value, big)] + rest;
      assert es[1..] == rest;
    } else {
      es := [];
    }
  }

  lemma {:induction false} Bounded<V>(h: seq<Entry<V>>) returns (big: nat)
    ensures forall i :: 0 <= i < |h| ==> h[i].priority < big
  {
    big := 0;
    if h != [] {
      big := Bounded(h[1..]);
      assert forall i :: 0 < i < |h| ==> h[i] == h[1..][i - 1];
      big := if h[0].priority >= big then h[0].priority + 1 else big;
    }
  }

  /**
   * The earliest deadline is in front now and after every later sequence of settings and expiries exactly when the
   * queue is in heap order.
   */
  lemma FrontStaysMinimumIff<V(!new)>(h: seq<Entry<V>>)
    requires Unique(h)
    ensures Heap(h) <==> forall es :: EventsOk(es) ==> FrontIsMinimum(Continue(h, es))
  {
    if Heap(h) {
      forall es: seq<Event<V>> | EventsOk(es)
        ensures FrontIsMinimum(Continue(h, es))
      {
        HeapKeepsFront(h, es);
      }
    } else {
      var i :| 0 < i < |h| && !Ordered(h, i);
      var big := Bounded(h);
      var es := Exposed(h, big, Parent(i), i);
    }
  }

  /** A cancellation leaves the earliest deadline in front for good exactly when the last entry fits into the gap. */
  lemma CancelKeepsFrontIff<V(!new)>(h: seq<Entry<V>>, v: V)
    requires Unique(h) && Heap(h) && HasValue(h, v)
    ensures
      (forall es :: EventsOk(es) ==> FrontIsMinimum(Continue(UpdateTimeout(h, v, -1), es)))
      <==> LastFitsAt(h, OffsetOf(h, v))
  {
    UpdateTimeoutEntries(h, v, -1);
    UpdateTimeoutKeepsHeapIff(h, v, -1);
    FrontStaysMinimumIff(UpdateTimeout(h, v, -1));
  }
}
