/** Emptying a directory through a path: which nodes go, in which order, and how long the path lasts. */
module Purges {
  import opened FileSystems
  import opened Disks

  // ---------- paths that stay usable ----------

  /** The names still lead to `q`, or nowhere any more. */
  ghost predicate Leads(nodes: Nodes, start: Path, names: seq<string>, q: Path)
  {
    Lead(nodes, start, names) == Dir(q) || Lead(nodes, start, names) == Absent
  }

  lemma LeadsKept(before: Nodes, after: Nodes, start: Path, names: seq<string>, q: Path)
    requires Shrunk(before, after) && Leads(before, start, names, q)
    ensures Leads(after, start, names, q)
  {
    LeadShrinks(before, after, start, names);
  }

  /** The way to `q` does not pass through anything below `q`. */
  ghost predicate Steady(nodes: Nodes, start: Path, names: seq<string>, q: Path)
  {
    Lead(WithoutBelow(nodes, q), start, names) == Dir(q)
  }

  /** Only nodes strictly below `q` are gone. */
  ghost predicate RemovedBelow(before: Nodes, after: Nodes, q: Path)
  {
    Shrunk(before, after) && forall x :: x in before && !(q < x) ==> x in after
  }

  /** A steady path leads to `q` whatever has gone below it, and stays steady. */
  lemma SteadyHolds(before: Nodes, after: Nodes, start: Path, names: seq<string>, q: Path)
    requires Steady(before, start, names, q) && RemovedBelow(before, after, q)
    ensures Lead(after, start, names) == Dir(q) && Steady(after, start, names, q)
  {
    var least := WithoutBelow(before, q);
    assert WithoutBelow(after, q) == least;
    assert Shrunk(after, least);
    LeadShrinks(after, least, start, names);
  }

  // ---------- the order of removal ----------

  ghost function Under(nodes: Nodes, p: Path): (s: set<Path>)
  {
    set q | q in nodes && p <= q
  }

  lemma FewerBelow(nodes: Nodes, p: Path, name: string)
    requires p in nodes
    ensures |Under(nodes, p + [name])| < |Under(nodes, p)|
  {
    var c := p + [name];
    assert p in Under(nodes, p) && p !in Under(nodes, c);
    SubsetSize(Under(nodes, c), Under(nodes, p) - {p});
  }

  lemma {:induction false} SubsetSize(a: set<Path>, b: set<Path>)
    requires a <= b
    ensures |a| <= |b|
  {
    if a != {} {
      var x :| x in a;
      SubsetSize(a - {x}, b - {x});
    }
  }

  lemma UnderShrinks(before: Nodes, after: Nodes, p: Path)
    requires Shrunk(before, after)
    ensures |Under(after, p)| <= |Under(before, p)|
  {
    SubsetSize(Under(after, p), Under(before, p));
  }

  /** The first node to go at or below `q`, counting the entries of `q` from `i` on: children before their directory. */
  ghost function FirstFrom(nodes: Nodes, q: Path, i: nat): (f: Path)
    requires q in nodes
    ensures f in nodes && q <= f
    decreases |Under(nodes, q)|, if nodes[q].DirNode? then |nodes[q].listing| - i else 0
  {
    if !nodes[q].DirNode? || i >= |nodes[q].listing| then q
    else
      var name := nodes[q].listing[i].name;
      if IsDot(name) || q + [name] !in nodes then FirstFrom(nodes, q, i + 1)
      else FewerBelow(nodes, q, name); FirstFrom(nodes, q + [name], 0)
  }

  ghost function First(nodes: Nodes, q: Path): (f: Path)
    requires q in nodes
    ensures f in nodes && q <= f
  {
    FirstFrom(nodes, q, 0)
  }

  /** The directory's contents go one by one, until none is left or the path does not lead there any more. */
  ghost function Purged(nodes: Nodes, start: Path, names: seq<string>, q: Path): (r: Nodes)
    decreases nodes.Keys
  {
    if Lead(nodes, start, names) != Dir(q) || First(nodes, q) == q then nodes
    else Purged(nodes - {First(nodes, q)}, start, names, q)
  }

  /** A listed child that is there goes before its directory. */
  lemma {:induction false} ChildGoesFirst(nodes: Nodes, q: Path, i: nat, j: nat)
    requires q in nodes && nodes[q].DirNode? && i <= j < |nodes[q].listing|
    requires !IsDot(nodes[q].listing[j].name) && q + [nodes[q].listing[j].name] in nodes
    ensures FirstFrom(nodes, q, i) != q
    decreases j - i
  {
    var name := nodes[q].listing[i].name;
    if i < j && (IsDot(name) || q + [name] !in nodes) {
      ChildGoesFirst(nodes, q, i + 1, j);
    }
  }

  /** A directory goes last: only once nothing is left below it. */
  lemma FirstIsLast(nodes: Nodes, q: Path)
    requires TreeOk(nodes) && q in nodes
    ensures First(nodes, q) == q <==> forall x :: x in nodes ==> !(q < x)
  {
    hide FirstFrom;
    forall x | x in nodes && q < x
      ensures First(nodes, q) != q
    {
      ChildOnTheWay(nodes, q, x);
      hide TreeOk;
      var c := x[..|q| + 1];
      assert c == q + [c[|q|]] && c[..|q|] == q;
      var j :| 0 <= j < |nodes[q].listing| && nodes[q].listing[j].name == c[|q|];
      ChildGoesFirst(nodes, q, 0, j);
    }
  }

  /** So whatever goes has nothing below it. */
  lemma {:induction false} FirstIsLeaf(nodes: Nodes, q: Path, i: nat)
    requires TreeOk(nodes) && q in nodes
    ensures FirstFrom(nodes, q, i) == q || forall x :: x in nodes ==> !(FirstFrom(nodes, q, i) < x)
    decreases |Under(nodes, q)|, if nodes[q].DirNode? then |nodes[q].listing| - i else 0
  {
    hide TreeOk;
    if nodes[q].DirNode? && i < |nodes[q].listing| {
      var name := nodes[q].listing[i].name;
      if IsDot(name) || q + [name] !in nodes {
        FirstIsLeaf(nodes, q, i + 1);
      } else {
        FewerBelow(nodes, q, name);
        FirstIsLeaf(nodes, q + [name], 0);
        FirstIsLast(nodes, q + [name]);
      }
    }
  }

  lemma FirstRemoved(nodes: Nodes, q: Path)
    requires TreeOk(nodes) && q in nodes && First(nodes, q) != q
    ensures TreeOk(nodes - {First(nodes, q)}) && RemovedBelow(nodes, nodes - {First(nodes, q)}, q)
    ensures forall x :: x in nodes ==> !(First(nodes, q) < x)
  {
    hide TreeOk, FirstFrom;
    FirstIsLeaf(nodes, q, 0);
    LeafRemoved(nodes, First(nodes, q));
  }

  /** Purging removes nothing but contents, and all of them if the path lasts. */
  lemma {:induction false} PurgedFacts(nodes: Nodes, start: Path, names: seq<string>, q: Path)
    requires TreeOk(nodes)
    ensures
      var r := Purged(nodes, start, names, q);
      && TreeOk(r) && RemovedBelow(nodes, r, q)
      && (Lead(r, start, names) == Dir(q) ==> forall x :: x in r ==> !(q < x))
    decreases nodes.Keys
  {
    hide TreeOk, First, Lead;
    if Lead(nodes, start, names) == Dir(q) {
      FirstIsLast(nodes, q);
      if First(nodes, q) != q {
        FirstRemoved(nodes, q);
        PurgedFacts(nodes - {First(nodes, q)}, start, names, q);
      }
    }
  }

  lemma LastRemoved(before: Nodes, emptied: Nodes, q: Path)
    requires RemovedBelow(before, emptied, q) && forall x :: x in emptied ==> !(q < x)
    ensures emptied - {q} == Without(before, q) && emptied == WithoutBelow(before, q)
  {
    forall x | x in emptied
      ensures q <= x <==> x == q
    {
      assert !(q < x);
    }
  }

  /** Through a path that does not depend on them all the contents go. */
  lemma SteadyPurges(nodes: Nodes, start: Path, names: seq<string>, q: Path)
    requires TreeOk(nodes) && Steady(nodes, start, names, q)
    ensures Purged(nodes, start, names, q) == WithoutBelow(nodes, q)
  {
    hide TreeOk, Purged, Steady, Lead;
    var r := Purged(nodes, start, names, q);
    PurgedFacts(nodes, start, names, q);
    SteadyHolds(nodes, r, start, names, q);
    LastRemoved(nodes, r, q);
  }

  /** Only where the names lead matters. */
  lemma {:induction false} SamePurge(nodes: Nodes, start: Path, names: seq<string>, names': seq<string>, q: Path)
    requires forall m: Nodes :: Lead(m, start, names) == Lead(m, start, names')
    ensures Purged(nodes, start, names, q) == Purged(nodes, start, names', q)
    decreases nodes.Keys
  {
    hide Lead, First;
    if Lead(nodes, start, names) == Dir(q) && First(nodes, q) != q {
      SamePurge(nodes - {First(nodes, q)}, start, names, names', q);
    }
  }

  // ---------- one entry after the other ----------

  /** What deleting `p` through names that name it leaves, whether or not it is still there. */
  ghost function TakenAt(nodes: Nodes, start: Path, names: seq<string>, p: Path): (r: Nodes)
  {
    if p !in nodes || !nodes[p].DirNode? then nodes - {p}
    else
      var e := Purged(nodes, start, names, p);
      if Lead(e, start, names) == Dir(p) then e - {p} else e
  }

  /** What deleting one entry of the directory `q` leaves. */
  ghost function Taken(nodes: Nodes, start: Path, names: seq<string>, q: Path, name: string): (r: Nodes)
  {
    if IsDot(name) || Lead(nodes, start, names) != Dir(q) then nodes
    else TakenAt(nodes, start, names + [name], q + [name])
  }

  /** The first `n` entries of the directory are gone. */
  ghost predicate Gone(nodes: Nodes, q: Path, listing: seq<Entry>, n: nat)
  {
    forall j :: 0 <= j < n <= |listing| && !IsDot(listing[j].name) ==> q + [listing[j].name] !in nodes
  }

  /** Then the next one is first. */
  lemma {:induction false} SkipGone(nodes: Nodes, q: Path, listing: seq<Entry>, i: nat, n: nat)
    requires q in nodes && nodes[q] == DirNode(listing) && i <= n <= |listing| && Gone(nodes, q, listing, n)
    ensures FirstFrom(nodes, q, i) == FirstFrom(nodes, q, n)
    decreases n - i
  {
    if i < n {
      SkipGone(nodes, q, listing, i + 1, n);
    }
  }

  lemma NextIsFirst(nodes: Nodes, q: Path, listing: seq<Entry>, i: nat)
    requires q in nodes && nodes[q] == DirNode(listing) && i < |listing| && Gone(nodes, q, listing, i)
    requires !IsDot(listing[i].name) && q + [listing[i].name] in nodes
    ensures First(nodes, q) == First(nodes, q + [listing[i].name]) != q
  {
    SkipGone(nodes, q, listing, 0, i);
  }

  /** The path to a child that is there lasts as long as the path to its directory. */
  lemma ChildLead(nodes: Nodes, start: Path, names: seq<string>, q: Path, name: string)
    requires Plain(name) && Leads(nodes, start, names, q) && q + [name] in nodes && nodes[q + [name]].DirNode?
    ensures Lead(nodes, start, names + [name]) == Dir(q + [name]) <==> Lead(nodes, start, names) == Dir(q)
  {
    hide Lead;
    LeadOn(nodes, start, names, name);
  }

  /** Purging a child that is next is a part of purging its directory. */
  lemma {:induction false} ChildPurge(nodes: Nodes, start: Path, names: seq<string>, q: Path,
                                      listing: seq<Entry>, i: nat)
    requires Leads(nodes, start, names, q) && q in nodes && nodes[q] == DirNode(listing)
    requires i < |listing| && Gone(nodes, q, listing, i) && Plain(listing[i].name)
    requires q + [listing[i].name] in nodes && nodes[q + [listing[i].name]].DirNode?
    ensures
      var name := listing[i].name;
      var e := Purged(nodes, start, names + [name], q + [name]);
      && Purged(nodes, start, names, q) == Purged(e, start, names, q)
      && q in e && e[q] == DirNode(listing) && q + [name] in e && e[q + [name]].DirNode?
      && Gone(e, q, listing, i) && Leads(e, start, names, q)
    decreases nodes.Keys
  {
    hide Lead, First;
    var name := listing[i].name;
    var c := q + [name];
    ChildLead(nodes, start, names, q, name);
    if Lead(nodes, start, names + [name]) == Dir(c) {
      NextIsFirst(nodes, q, listing, i);
      if First(nodes, c) != c {
        var rest := nodes - {First(nodes, c)};
        LeadsKept(nodes, rest, start, names, q);
        ChildPurge(rest, start, names, q, listing, i);
      }
    }
  }

  /** Deleting the entries in order is purging the directory. */
  lemma TakenIsProgress(nodes: Nodes, start: Path, names: seq<string>, q: Path, listing: seq<Entry>, i: nat)
    requires TreeOk(nodes) && Leads(nodes, start, names, q) && q in nodes && nodes[q] == DirNode(listing)
    requires i < |listing| && listing[i].name != ""
    requires Lead(nodes, start, names) == Dir(q) ==> Gone(nodes, q, listing, i)
    ensures
      var after := Taken(nodes, start, names, q, listing[i].name);
      && Purged(after, start, names, q) == Purged(nodes, start, names, q)
      && (Lead(after, start, names) == Dir(q) ==> Gone(after, q, listing, i + 1))
  {
    var name := listing[i].name;
    var c := q + [name];
    assert c !in nodes ==> nodes - {c} == nodes;
    if Plain(name) && Lead(nodes, start, names) == Dir(q) && c in nodes {
      if nodes[c].DirNode? {
        DirectoryTaken(nodes, start, names, q, listing, i);
      } else {
        hide Lead, TreeOk;
        NextIsFirst(nodes, q, listing, i);
      }
    }
  }

  lemma DirectoryTaken(nodes: Nodes, start: Path, names: seq<string>, q: Path, listing: seq<Entry>, i: nat)
    requires TreeOk(nodes) && Lead(nodes, start, names) == Dir(q) && q in nodes && nodes[q] == DirNode(listing)
    requires i < |listing| && Plain(listing[i].name) && Gone(nodes, q, listing, i)
    requires q + [listing[i].name] in nodes && nodes[q + [listing[i].name]].DirNode?
    ensures
      var after := Taken(nodes, start, names, q, listing[i].name);
      && Purged(after, start, names, q) == Purged(nodes, start, names, q)
      && (Lead(after, start, names) == Dir(q) ==> Gone(after, q, listing, i + 1))
  {
    hide Lead, TreeOk, First;
    var name := listing[i].name;
    var c := q + [name];
    var e := Purged(nodes, start, names + [name], c);
    ChildPurge(nodes, start, names, q, listing, i);
    PurgedFacts(nodes, start, names + [name], c);
    ChildLead(e, start, names, q, name);
    if Lead(e, start, names) == Dir(q) {
      FirstIsLast(e, c);
      NextIsFirst(e, q, listing, i);
    }
  }
}
