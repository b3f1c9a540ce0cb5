/** The priority queue's array operations as functions of its contents, and when they keep the heap order. */
module HeapSpec {

  datatype Entry<V> = Entry(priority: int, value: V)

  function Parent(i: nat): (p: nat)
    requires i > 0
    ensures p < i
  {
    (i - 1) / 2
  }

  function Swap<T>(s: seq<T>, i: nat, j: nat): (r: seq<T>)
    requires i < |s| && j < |s|
    ensures |r| == |s|
  {
    s[i := s[j]][j := s[i]]
  }

  /** The bubbling loop goes on to the root whether or not a swap happened. */
  function BubbleUp<V>(h: seq<Entry<V>>, i: nat): (r: seq<Entry<V>>)
    requires i < |h|
    ensures |r| == |h|
    decreases i
  {
    if i == 0 then h
    else
      var p := Parent(i);
      BubbleUp(if h[p].priority > h[i].priority then Swap(h, p, i) else h, p)
  }

  function SmallestOf<V>(h: seq<Entry<V>>, i: nat): (m: nat)
    requires i < |h|
    ensures m < |h| && (m == i || m == 2 * i + 1 || m == 2 * i + 2)
    ensures m != i ==> h[m].priority < h[i].priority
    ensures 2 * i + 1 < |h| ==> h[m].priority <= h[2 * i + 1].priority
    ensures 2 * i + 2 < |h| ==> h[m].priority <= h[2 * i + 2].priority
  {
    var left := 2 * i + 1;
    if left >= |h| then i
    else
      var smallest := if h[left].priority < h[i].priority then left else i;
      if left + 1 < |h| && h[left + 1].priority < h[smallest].priority then left + 1 else smallest
  }

  function BubbleDown<V>(h: seq<Entry<V>>, i: nat): (r: seq<Entry<V>>)
    requires i < |h|
    ensures |r| == |h|
    decreases |h| - i
  {
    var m := SmallestOf(h, i);
    if m == i then h else BubbleDown(Swap(h, i, m), m)
  }

  function Insert<V>(h: seq<Entry<V>>, e: Entry<V>): (r: seq<Entry<V>>)
    ensures |r| == |h| + 1
  {
    BubbleUp(h + [e], |h|)
  }

  function RemoveAt<V>(h: seq<Entry<V>>, k: nat): (r: seq<Entry<V>>)
    requires k < |h|
    ensures |r| == |h| - 1
  {
    var n := |h| - 1;
    if k == n then h[..n] else BubbleDown(h[..n][k := h[n]], k)
  }

  function ChangePriority<V>(h: seq<Entry<V>>, k: nat, priority: int): (r: seq<Entry<V>>)
    requires k < |h|
    ensures |r| == |h|
  {
    var g := h[k := h[k].(priority := priority)];
    if k == 0 || priority > g[Parent(k)].priority then BubbleDown(g, k)
    else if priority < g[Parent(k)].priority then BubbleUp(g, k)
    else g
  }

  predicate HasValue<V(==)>(h: seq<Entry<V>>, v: V)
  {
    exists i :: 0 <= i < |h| && h[i].value == v
  }

  /** No value is queued twice. */
  ghost predicate Unique<V>(h: seq<Entry<V>>)
  {
    forall i, j :: 0 <= i < j < |h| ==> h[i].value != h[j].value
  }

  function OffsetOf<V(==)>(h: seq<Entry<V>>, v: V): (k: nat)
    requires HasValue(h, v)
    ensures k < |h| && h[k].value == v
  {
    if h[0].value == v then 0
    else
      assert HasValue(h[1..], v) by {
        var i :| 0 <= i < |h| && h[i].value == v;
        assert h[1..][i - 1].value == v;
      }
      1 + OffsetOf(h[1..], v)
  }

  lemma OffsetIsUnique<V>(h: seq<Entry<V>>, v: V, k: nat)
    requires Unique(h) && k < |h| && h[k].value == v
    ensures HasValue(h, v) && OffsetOf(h, v) == k
  {
  }

  function RemoveByValue<V(==)>(h: seq<Entry<V>>, v: V): (r: seq<Entry<V>>)
  {
    if HasValue(h, v) then RemoveAt(h, OffsetOf(h, v)) else h
  }

  function InsertOrChange<V(==)>(h: seq<Entry<V>>, priority: int, v: V): (r: seq<Entry<V>>)
  {
    if HasValue(h, v) then ChangePriority(h, OffsetOf(h, v), priority) else Insert(h, Entry(priority, v))
  }

  /** Every entry is no smaller than its parent. */
  ghost predicate Heap<V>(h: seq<Entry<V>>)
  {
    forall i :: 0 < i < |h| ==> Ordered(h, i)
  }

  ghost predicate Ordered<V>(h: seq<Entry<V>>, i: nat)
    requires 0 < i < |h|
  {
    h[Parent(i)].priority <= h[i].priority
  }

  lemma {:induction false} HeapMinimum<V>(h: seq<Entry<V>>, i: nat)
    requires Heap(h) && i < |h|
    ensures h[0].priority <= h[i].priority
  {
    if i > 0 {
      assert Ordered(h, i);
      HeapMinimum(h, Parent(i));
    }
  }

  /** In order except between `i` and its parent; the children of `i` are in order with its parent. */
  ghost predicate HeapButUp<V>(h: seq<Entry<V>>, i: nat)
    requires i < |h|
  {
    && (forall j :: 0 < j < |h| && j != i ==> Ordered(h, j))
    && (forall j :: 0 < j < |h| && 0 < i && Parent(j) == i ==> h[Parent(i)].priority <= h[j].priority)
  }

  lemma {:induction false} BubbleUpHeap<V>(h: seq<Entry<V>>, i: nat)
    requires i < |h| && HeapButUp(h, i)
    ensures Heap(BubbleUp(h, i))
    decreases i
  {
    if i > 0 {
      var p := Parent(i);
      var g := if h[p].priority > h[i].priority then Swap(h, p, i) else h;
      assert HeapButUp(g, p) by {
        forall j | 0 < j < |h| && j != p
          ensures Ordered(g, j)
        {
          assert j != i ==> Ordered(h, j);
        }
        forall j | 0 < j < |h| && 0 < p && Parent(j) == p
          ensures g[Parent(p)].priority <= g[j].priority
        {
          assert Ordered(h, p);
          assert j != i ==> Ordered(h, j);
        }
      }
      BubbleUpHeap(g, p);
    }
  }

  /** In order except between `i` and its children; the children of `i` are in order with its parent. */
  ghost predicate HeapButDown<V>(h: seq<Entry<V>>, i: nat)
    requires i < |h|
  {
    && (forall j :: 0 < j < |h| && Parent(j) != i ==> Ordered(h, j))
    && (forall j :: 0 < j < |h| && 0 < i && Parent(j) == i ==> h[Parent(i)].priority <= h[j].priority)
  }

  lemma {:induction false} BubbleDownHeap<V>(h: seq<Entry<V>>, i: nat)
    requires i < |h| && HeapButDown(h, i)
    ensures Heap(BubbleDown(h, i))
    decreases |h| - i
  {
    var m := SmallestOf(h, i);
    if m == i {
      forall j | 0 < j < |h|
        ensures Ordered(h, j)
      {
        assert Parent(j) == i ==> j == 2 * i + 1 || j == 2 * i + 2;
      }
    } else {
      var g := Swap(h, i, m);
      assert HeapButDown(g, m) by {
        assert Parent(m) == i;
        forall j | 0 < j < |h| && Parent(j) != m
          ensures Ordered(g, j)
        {
          assert Parent(j) == i ==> j == 2 * i + 1 || j == 2 * i + 2;
          assert Parent(j) != i ==> Ordered(h, j);
        }
        forall j | 0 < j < |h| && Parent(j) == m
          ensures g[Parent(m)].priority <= g[j].priority
        {
          assert Ordered(h, j);
        }
      }
      BubbleDownHeap(g, m);
    }
  }

  lemma InsertKeepsHeap<V>(h: seq<Entry<V>>, e: Entry<V>)
    requires Heap(h)
    ensures Heap(Insert(h, e))
  {
    var g := h + [e];
    forall j | 0 < j < |g| && j != |h|
      ensures Ordered(g, j)
    {
      assert Ordered(h, j);
    }
    BubbleUpHeap(g, |h|);
  }

  lemma ChangePriorityKeepsHeap<V>(h: seq<Entry<V>>, k: nat, priority: int)
    requires Heap(h) && k < |h|
    ensures Heap(ChangePriority(h, k, priority))
  {
    var g := h[k := h[k].(priority := priority)];
    forall j | 0 < j < |h| && 0 < k && Parent(j) == k
      ensures g[Parent(k)].priority <= g[j].priority
    {
      assert Ordered(h, j) && Ordered(h, k);
    }
    forall j | 0 < j < |h| && j != k && Parent(j) != k
      ensures Ordered(g, j)
    {
      assert Ordered(h, j);
    }
    if k == 0 || priority > g[Parent(k)].priority {
      BubbleDownHeap(g, k);
    } else {
      forall j | 0 < j < |h| && Parent(j) == k
        ensures Ordered(g, j)
      {
        assert Ordered(h, j) && Ordered(h, k);
      }
      if priority < g[Parent(k)].priority {
        BubbleUpHeap(g, k);
      } else {
        assert Ordered(g, k);
      }
    }
  }

  /** What a caller can check before removing entry `k`: the last entry may take its place there. */
  predicate LastFitsAt<V>(h: seq<Entry<V>>, k: nat)
    requires k < |h|
  {
    k == 0 || k == |h| - 1 || h[Parent(k)].priority <= h[|h| - 1].priority
  }

  lemma BubbleDownStops<V>(g: seq<Entry<V>>, k: nat)
    requires k < |g| && forall j :: 0 < j < |g| && Parent(j) == k ==> g[k].priority <= g[j].priority
    ensures BubbleDown(g, k) == g
  {
    var left := 2 * k + 1;
    assert left < |g| ==> Parent(left) == k;
    assert left + 1 < |g| ==> Parent(left + 1) == k;
    assert SmallestOf(g, k) == k;
  }

  /** Removal only bubbles down, so it keeps the heap order exactly when the last entry fits. */
  lemma RemoveAtKeepsHeapIff<V>(h: seq<Entry<V>>, k: nat)
    requires Heap(h) && k < |h|
    ensures Heap(RemoveAt(h, k)) <==> LastFitsAt(h, k)
  {
    hide BubbleDown, SmallestOf;
    var n := |h| - 1;
    forall j | 0 < j < n
      ensures Ordered(h[..n], j)
    {
      assert Ordered(h, j);
    }
    if k != n {
      var g := h[..n][k := h[n]];
      forall j | 0 < j < n && j != k && Parent(j) != k
        ensures Ordered(g, j)
      {
        assert Ordered(h, j);
      }
      forall j | 0 < j < n && 0 < k && Parent(j) == k
        ensures g[Parent(k)].priority <= g[j].priority
      {
        assert Ordered(h, j) && Ordered(h, k);
      }
      if LastFitsAt(h, k) {
        assert 0 < k ==> Ordered(g, k);
        BubbleDownHeap(g, k);
      } else {
        assert forall j :: 0 < j < n && Parent(j) == k ==> g[k].priority < g[j].priority;
        BubbleDownStops(g, k);
        assert !Ordered(g, k);
      }
    }
  }

  /** Removing the front moves the last entry there; here one swap then restores the order. */
  lemma RemoveFrontOneSwap<V>(h: seq<Entry<V>>, moved: seq<Entry<V>>, m: nat)
    requires |h| > 1 && moved == h[..|h| - 1][0 := h[|h| - 1]]
    requires 0 < m < |moved| && SmallestOf(moved, 0) == m && SmallestOf(Swap(moved, 0, m), m) == m
    ensures RemoveAt(h, 0) == Swap(moved, 0, m)
  {
    assert RemoveAt(h, 0) == BubbleDown(moved, 0);
    assert BubbleDown(moved, 0) == BubbleDown(Swap(moved, 0, m), m);
  }

  lemma {:induction false} BubbleUpPermutes<V>(h: seq<Entry<V>>, i: nat)
    requires i < |h| && Unique(h)
    ensures Unique(BubbleUp(h, i)) && multiset(BubbleUp(h, i)) == multiset(h)
    decreases i
  {
    if i > 0 {
      var p := Parent(i);
      BubbleUpPermutes(if h[p].priority > h[i].priority then Swap(h, p, i) else h, p);
    }
  }

  lemma {:induction false} BubbleDownPermutes<V>(h: seq<Entry<V>>, i: nat)
    requires i < |h| && Unique(h)
    ensures Unique(BubbleDown(h, i)) && multiset(BubbleDown(h, i)) == multiset(h)
    decreases |h| - i
  {
    var m := SmallestOf(h, i);
    if m != i {
      BubbleDownPermutes(Swap(h, i, m), m);
    }
  }

  lemma SameMultisetSameEntries<V>(g: seq<Entry<V>>, h: seq<Entry<V>>)
    requires multiset(g) == multiset(h)
    ensures forall e :: e in g <==> e in h
  {
    assert forall e :: e in g <==> e in multiset(g);
    assert forall e :: e in h <==> e in multiset(h);
  }

  lemma ReplacedEntries<V>(h: seq<Entry<V>>, k: nat, x: Entry<V>)
    requires Unique(h) && k < |h|
    ensures forall e :: e in h[k := x] <==> e == x || (e in h && e != h[k])
  {
    var g := h[k := x];
    assert g[k] == x;
    forall e | e in h && e != h[k]
      ensures e in g
    {
      var i :| 0 <= i < |h| && h[i] == e;
      assert g[i] == e;
    }
  }

  /** Removal takes out exactly the entry at `k`, whether or not it keeps the order. */
  lemma RemoveAtEntries<V>(h: seq<Entry<V>>, k: nat)
    requires Unique(h) && k < |h|
    ensures Unique(RemoveAt(h, k))
    ensures forall e :: e in RemoveAt(h, k) <==> e in h && e != h[k]
  {
    var n := |h| - 1;
    assert h == h[..n] + [h[n]];
    if k != n {
      var moved := h[..n][k := h[n]];
      BubbleDownPermutes(moved, k);
      SameMultisetSameEntries(RemoveAt(h, k), moved);
      ReplacedEntries(h[..n], k, h[n]);
    }
  }

  lemma ChangePriorityEntries<V>(h: seq<Entry<V>>, k: nat, priority: int)
    requires Unique(h) && k < |h|
    ensures Unique(ChangePriority(h, k, priority))
    ensures forall e :: e in ChangePriority(h, k, priority) <==>
                        e == Entry(priority, h[k].value) || (e in h && e != h[k])
  {
    var g := h[k := h[k].(priority := priority)];
    ReplacedEntries(h, k, h[k].(priority := priority));
    BubbleDownPermutes(g, k);
    BubbleUpPermutes(g, k);
    SameMultisetSameEntries(ChangePriority(h, k, priority), g);
  }

  lemma InsertEntries<V>(h: seq<Entry<V>>, x: Entry<V>)
    requires Unique(h) && !HasValue(h, x.value)
    ensures Unique(Insert(h, x))
    ensures forall e :: e in Insert(h, x) <==> e == x || e in h
  {
    BubbleUpPermutes(h + [x], |h|);
    SameMultisetSameEntries(Insert(h, x), h + [x]);
  }

  /** A negative timeout cancels the port's entry, any other sets it. */
  function UpdateTimeout<V(==)>(h: seq<Entry<V>>, v: V, timeout: int): (r: seq<Entry<V>>)
  {
    if timeout < 0 then RemoveByValue(h, v) else InsertOrChange(h, timeout, v)
  }

  lemma UpdateTimeoutEntries<V>(h: seq<Entry<V>>, v: V, timeout: int)
    requires Unique(h)
    ensures Unique(UpdateTimeout(h, v, timeout))
    ensures forall e :: e in UpdateTimeout(h, v, timeout) <==>
                        (timeout >= 0 && e == Entry(timeout, v)) || (e in h && e.value != v)
  {
    if HasValue(h, v) {
      var k := OffsetOf(h, v);
      RemoveAtEntries(h, k);
      ChangePriorityEntries(h, k, timeout);
      assert forall e :: e in h ==> (e.value == v <==> e == h[k]);
    } else if timeout >= 0 {
      InsertEntries(h, Entry(timeout, v));
    }
  }

  /** Setting a timeout always keeps the heap order; cancelling keeps it exactly when the last entry fits. */
  lemma UpdateTimeoutKeepsHeapIff<V>(h: seq<Entry<V>>, v: V, timeout: int)
    requires Heap(h)
    ensures Heap(UpdateTimeout(h, v, timeout)) <==> (timeout < 0 && HasValue(h, v) ==> LastFitsAt(h, OffsetOf(h, v)))
  {
    if HasValue(h, v) {
      RemoveAtKeepsHeapIff(h, OffsetOf(h, v));
      ChangePriorityKeepsHeap(h, OffsetOf(h, v), timeout);
    } else {
      InsertKeepsHeap(h, Entry(timeout, v));
    }
  }

  /** Sifting up changes nothing in a heap. */
  lemma {:induction false} BubbleUpIdle<V>(h: seq<Entry<V>>, i: nat)
    requires Heap(h) && i < |h|
    ensures BubbleUp(h, i) == h
    decreases i
  {
    if i > 0 {
      assert Ordered(h, i);
      BubbleUpIdle(h, Parent(i));
    }
  }

  /** Setting the next entry of a heap when those before it are queued. */
  lemma InsertInOrder<V>(h: seq<Entry<V>>, k: nat)
    requires Heap(h) && Unique(h) && k < |h| && h[k].priority >= 0
    ensures UpdateTimeout(h[..k], h[k].value, h[k].priority) == h[..k + 1]
  {
    assert !HasValue(h[..k], h[k].value);
    var next := h[..k + 1];
    assert h[..k] + [h[k]] == next;
    forall i | 0 < i < |next|
      ensures Ordered(next, i)
    {
      assert Ordered(h, i);
    }
    BubbleUpIdle(next, k);
  }

  ghost predicate Deadlines<V>(h: seq<Entry<V>>, ds: seq<int>)
  {
    |h| == |ds| && forall i :: 0 <= i < |h| ==> h[i].priority == ds[i]
  }

  lemma SevenInOrder<V>(h: seq<Entry<V>>)
    requires Deadlines(h, [1, 10, 2, 11, 12, 5, 3])
    ensures Heap(h)
  {
    forall i | 0 < i < |h|
      ensures Ordered(h, i)
    {
      assert 0 < i < 3 ==> Parent(i) == 0;
      assert 3 <= i < 5 ==> Parent(i) == 1;
      assert 5 <= i < 7 ==> Parent(i) == 2;
    }
  }

  lemma CancelFourth<V>(h: seq<Entry<V>>)
    requires Deadlines(h, [1, 10, 2, 11, 12, 5, 3])
    ensures Deadlines(RemoveAt(h, 3), [1, 10, 2, 3, 12, 5])
  {
    var moved := h[..6][3 := h[6]];
    assert SmallestOf(moved, 3) == 3;
    assert RemoveAt(h, 3) == moved;
  }

  lemma ExpireFirst<V>(h: seq<Entry<V>>)
    requires Deadlines(h, [1, 10, 2, 3, 12, 5])
    ensures Deadlines(RemoveAt(h, 0), [2, 10, 5, 3, 12])
  {
    var moved := h[..5][0 := h[5]];
    assert Deadlines(moved, [5, 10, 2, 3, 12]);
    assert Deadlines(Swap(moved, 0, 2), [2, 10, 5, 3, 12]);
    RemoveFrontOneSwap(h, moved, 2);
  }

  lemma ExpireSecond<V>(h: seq<Entry<V>>)
    requires Deadlines(h, [2, 10, 5, 3, 12])
    ensures Deadlines(RemoveAt(h, 0), [5, 10, 12, 3])
  {
    var moved := h[..4][0 := h[4]];
    assert Deadlines(moved, [12, 10, 5, 3]);
    assert Deadlines(Swap(moved, 0, 2), [5, 10, 12, 3]);
    RemoveFrontOneSwap(h, moved, 2);
  }

  /** The queue after setting the first `k` entries one after the other. */
  function SetAll<V(==)>(h: seq<Entry<V>>, k: nat): (r: seq<Entry<V>>)
    requires k <= |h|
  {
    if k == 0 then [] else UpdateTimeout(SetAll(h, k - 1), h[k - 1].value, h[k - 1].priority)
  }

  /** Every heap comes about by setting its entries in order. */
  lemma {:induction false} SetInOrder<V>(h: seq<Entry<V>>, k: nat)
    requires Heap(h) && Unique(h) && k <= |h| && forall i :: 0 <= i < |h| ==> h[i].priority >= 0
    ensures SetAll(h, k) == h[..k]
  {
    if k > 0 {
      SetInOrder(h, k - 1);
      InsertInOrder(h, k - 1);
    }
  }

  /** Seven deadlines are set; cancelling the fourth leaves 3 behind 10, and two expiries later the front is 5. */
  lemma CancelCanHideTheMinimum<V>(h: seq<Entry<V>>)
    requires Deadlines(h, [1, 10, 2, 11, 12, 5, 3]) && Unique(h)
    ensures SetAll(h, 7) == h && UpdateTimeout(h, h[3].value, -1) == RemoveAt(h, 3)
    ensures
      var later := RemoveAt(RemoveAt(RemoveAt(h, 3), 0), 0);
      |later| == 4 && later[0].priority == 5 && later[3].priority == 3
  {
    hide RemoveAt;
    SevenInOrder(h);
    SetInOrder(h, 7);
    assert h[..7] == h;
    OffsetIsUnique(h, h[3].value, 3);
    CancelFourth(h);
    var h1 := RemoveAt(h, 3);
    ExpireFirst(h1);
    var h2 := RemoveAt(h1, 0);
    ExpireSecond(h2);
  }
}
