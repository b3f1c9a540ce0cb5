/**
 * What recursive deletion does to a disk: its reach, what it needs of the path, and its exact effect without faults.
 */
module DeletionSpec {
  import opened FileSystems
  import opened PathBuffers
  import opened Disks
  import opened Purges

  // ---------- room in the path buffer ----------

  /** The length of the text from a directory down to a node below it. */
  ghost function Extent(q: Path, d: Path): (n: nat)
    requires q <= d
  {
    if |d| == |q| then 0 else Extent(q, d[..|d| - 1]) + 1 + |d[|d| - 1]|
  }

  lemma {:induction false} ExtentChild(q: Path, name: string, d: Path)
    requires q + [name] <= d
    ensures q <= d && Extent(q, d) == 1 + |name| + Extent(q + [name], d)
    decreases |d|
  {
    if |d| == |q| + 1 {
      assert d == q + [name] && d[..|d| - 1] == q;
    } else {
      ExtentChild(q, name, d[..|d| - 1]);
    }
  }

  /** The length a path below `q` reaches when `q` itself has a text of length `n`. */
  ghost predicate Reaches(nodes: Nodes, q: Path, n: nat, d: Path, e: string, length: nat)
  {
    && d in nodes && q <= d && nodes[d].DirNode? && (e == "" || Listed(nodes[d].listing, e))
    && length == n + Extent(q, d) + 1 + |e|
  }

  /** All paths at or below `q` stay below the limit. */
  ghost predicate Fits(nodes: Nodes, q: Path, n: nat)
  {
    forall d, e, length: nat :: Reaches(nodes, q, n, d, e, length) ==> length < PATH_MAX
  }

  lemma ChildFits(nodes: Nodes, q: Path, n: nat, name: string)
    requires Fits(nodes, q, n)
    ensures Fits(nodes, q + [name], n + 1 + |name|)
  {
    var c, m := q + [name], n + 1 + |name|;
    forall d, e, length: nat | Reaches(nodes, c, m, d, e, length)
      ensures Reaches(nodes, q, n, d, e, length)
    {
      ExtentChild(q, name, d);
    }
    assert Fits(nodes, c, m);
  }

  lemma FitsKept(before: Nodes, after: Nodes, q: Path, n: nat)
    requires Shrunk(before, after) && Fits(before, q, n)
    ensures Fits(after, q, n)
  {
    forall d, e, length: nat | Reaches(after, q, n, d, e, length)
      ensures Reaches(before, q, n, d, e, length)
    {
    }
  }

  /** The directory's own separator, and each of its entries. */
  lemma EntryReach(nodes: Nodes, q: Path, n: nat, e: string)
    requires q in nodes && nodes[q].DirNode? && (e == "" || Listed(nodes[q].listing, e)) && Fits(nodes, q, n)
    ensures n + 1 + |e| < PATH_MAX
  {
    assert Reaches(nodes, q, n, q, e, n + 1 + |e|);
  }

  // ---------- removing the directory itself ----------

  /** What may be removed, seen from a disk that has lost nodes since. */
  lemma {:induction false} RemovableShrinks(before: Nodes, after: Nodes, start: Path, names: seq<string>)
    requires Shrunk(before, after)
    ensures FindRemovable(after, start, names).Named? ==>
              FindRemovable(after, start, names) == FindRemovable(before, start, names)
  {
    var t := Trimmed(names);
    if t != [] {
      LeadShrinks(before, after, start, t[..|t| - 1]);
    }
  }

  lemma {:induction false} TrimmedFull(names: seq<string>)
    requires names != [] && Plain(names[|names| - 1])
    ensures Trimmed(names) == names
  {
  }

  /** A name that leads to a directory is in the disk, and is that directory or a link to it. */
  lemma RemovableLeads(nodes: Nodes, start: Path, names: seq<string>, q: Path)
    requires names != [] && Lead(nodes, start, names) == Dir(q)
    ensures
      var s := FindRemovable(nodes, start, names);
      s == NoDirectory || (s.Named? && s.path in nodes && (nodes[s.path].DirNode? ==> s.path == q))
  {
    var t := Trimmed(names);
    TrimmedLeads(nodes, start, names);
    TrimmedBase(names);
    if t != [] && !IsDot(t[|t| - 1]) {
      var k := |t| - 1;
      var w := Lead(nodes, start, t[..k]);
      assert Lead(nodes, start, t) == if w.Dir? then Enter(nodes, w.path, t[k]) else w;
    }
  }

  /** The final call on a directory whose contents, or parts of them, are gone. */
  lemma RemovalOutcome(before: Nodes, emptied: Nodes, start: Path, names: seq<string>, q: Path)
    requires names != [] && Lead(before, start, names) == Dir(q) && RemovedBelow(before, emptied, q)
    ensures
      var (after, e) := DirectoryRemoved(emptied, FindRemovable(emptied, start, names));
      && (e == Fine ==> after == Without(before, q) && FindRemovable(before, start, names) == Named(q))
      && (e != Fine ==> after == emptied)
      && (e == NoEntry && Find(before, start, names) == Named(q) ==> Find(emptied, start, names) == NoSpot)
  {
    var s := FindRemovable(emptied, start, names);
    RemovableShrinks(before, emptied, start, names);
    RemovableLeads(before, start, names, q);
    if Find(before, start, names).Named? {
      PlainRemovable(before, emptied, start, names);
    }
    hide Lead, Find, FindRemovable, Trimmed;
    if DirectoryRemoved(emptied, s).1 == Fine {
      assert s.path == q;
      LastRemoved(before, emptied, q);
    }
  }

  lemma PlainRemovable(before: Nodes, after: Nodes, start: Path, names: seq<string>)
    requires names != [] && Find(before, start, names).Named?
    ensures FindRemovable(before, start, names) == Find(before, start, names)
    ensures FindRemovable(after, start, names) == Find(after, start, names)
  {
    TrimmedFull(names);
  }

  /** The same when the path still leads there and the contents are all gone. */
  lemma EmptyRemoval(before: Nodes, emptied: Nodes, start: Path, names: seq<string>, q: Path)
    requires names != [] && Lead(before, start, names) == Dir(q) && RemovedBelow(before, emptied, q)
    requires Lead(emptied, start, names) == Dir(q) && forall x :: x in emptied ==> !(q < x)
    ensures emptied == WithoutBelow(before, q)
    ensures
      var (after, e) := DirectoryRemoved(emptied, FindRemovable(emptied, start, names));
      if FindRemovable(before, start, names) == Named(q) then e == Fine && after == Without(before, q)
      else e == Failed && after == emptied
  {
    LastRemoved(before, emptied, q);
    RemovableShrinks(before, emptied, start, names);
    RemovableLeads(emptied, start, names, q);
    RemovableLeads(before, start, names, q);
    var t := Trimmed(names);
    hide Lead, Find, Trimmed;
  }

  lemma SlashNames(nodes: Nodes, start: Path, names: seq<string>)
    ensures Lead(nodes, start, names + [""]) == Lead(nodes, start, names)
    ensures FindRemovable(nodes, start, names + [""]) == FindRemovable(nodes, start, names)
  {
    LeadOn(nodes, start, names, "");
    assert (names + [""])[..|names|] == names;
    assert Trimmed(names + [""]) == Trimmed(names);
  }

  // ---------- the effect without faults ----------

  /** Purging a directory and removing it through the same path. */
  ghost function Removal(nodes: Nodes, start: Path, names: seq<string>, q: Path): (r: (Nodes, Errno))
  {
    var emptied := Purged(nodes, start, names, q);
    DirectoryRemoved(emptied, FindRemovable(emptied, start, names))
  }

  /** What deleting a path does when no call fails on its own: the new disk, and whether it succeeds. */
  ghost function Cleared(nodes: Nodes, start: Path, names: seq<string>): (r: (Nodes, bool))
    requires names != []
  {
    match Find(nodes, start, names)
    case Named(p) =>
      if p in nodes && nodes[p].DirNode? then
        (Removal(nodes, start, names, p).0, Removal(nodes, start, names, p).1 == Fine)
      else (nodes - {p}, p in nodes)
    case Reached(q) => (Removal(nodes, start, names, q).0, Removal(nodes, start, names, q).1 == Fine)
    case NoSpot => (nodes, false)
    case NoDirectory => (nodes, false)
  }

  /** When the directory itself goes, the path to it did not pass through its contents. */
  lemma RemovedIsSteady(before: Nodes, emptied: Nodes, start: Path, names: seq<string>, q: Path)
    requires names != [] && Lead(before, start, names) == Dir(q) && RemovedBelow(before, emptied, q)
    requires DirectoryRemoved(emptied, FindRemovable(emptied, start, names)).1 == Fine
    ensures Steady(before, start, names, q)
  {
    RemovalOutcome(before, emptied, start, names, q);
    RemovableShrinks(before, emptied, start, names);
    LastRemoved(before, emptied, q);
    var t := Trimmed(names);
    TrimmedLeads(emptied, start, names);
    TrimmedBase(names);
    var k := |t| - 1;
    var w := Lead(emptied, start, t[..k]);
    assert Lead(emptied, start, t) == if w.Dir? then Enter(emptied, w.path, t[k]) else w;
  }

  /**
   * The removal of a directory succeeds exactly when the path names the directory itself and does not pass through
   * its contents. If it fails, what the path could still reach is gone.
   */
  lemma RemovalIff(nodes: Nodes, start: Path, names: seq<string>, q: Path)
    requires TreeOk(nodes) && names != [] && Lead(nodes, start, names) == Dir(q)
    ensures
      var (after, e) := Removal(nodes, start, names, q);
      && (e == Fine <==> FindRemovable(nodes, start, names) == Named(q) && Steady(nodes, start, names, q))
      && (e == Fine ==> after == Without(nodes, q))
      && (e != Fine ==> after == Purged(nodes, start, names, q))
      && RemovedWithin(nodes, after, q)
  {
    hide TreeOk, Purged, Lead, FindRemovable, Find, DirectoryRemoved, Without, WithoutBelow, Steady;
    var emptied := Purged(nodes, start, names, q);
    PurgedFacts(nodes, start, names, q);
    RemovalOutcome(nodes, emptied, start, names, q);
    if Removal(nodes, start, names, q).1 == Fine {
      RemovedIsSteady(nodes, emptied, start, names, q);
    } else if Steady(nodes, start, names, q) {
      SteadyHolds(nodes, emptied, start, names, q);
      EmptyRemoval(nodes, emptied, start, names, q);
    }
    WithoutIsWithin(nodes, q);
  }

  lemma WithoutIsWithin(before: Nodes, q: Path)
    ensures RemovedWithin(before, Without(before, q), q)
  {
  }

  /** A directory named by its parent's entry: it goes if the path lasts, and otherwise seems to be gone already. */
  lemma NamedRemoval(nodes: Nodes, start: Path, names: seq<string>, q: Path)
    requires TreeOk(nodes) && names != [] && Lead(nodes, start, names) == Dir(q)
    requires Find(nodes, start, names) == Named(q)
    ensures
      var (after, e) := Removal(nodes, start, names, q);
      e != Failed && after == TakenAt(nodes, start, names, q)
  {
    var emptied := Purged(nodes, start, names, q);
    PurgedFacts(nodes, start, names, q);
    PlainRemovable(nodes, emptied, start, names);
    RemovableShrinks(nodes, emptied, start, names);
    hide TreeOk, Purged;
    var n := |names| - 1;
    assert names[..n] + [names[n]] == names;
    LeadShrinks(nodes, emptied, start, names[..n]);
    LeadOn(emptied, start, names[..n], names[n]);
  }

  /** Without faults deletion succeeds exactly on files, links, and directories that a path outside of them names. */
  lemma SucceedsIff(nodes: Nodes, start: Path, names: seq<string>)
    requires TreeOk(nodes) && names != []
    ensures
      var f, (after, ok) := Find(nodes, start, names), Cleared(nodes, start, names);
      && (ok ==> (f.Named? || f.Reached?) && f.path in nodes && after == Without(nodes, f.path))
      && (f.Named? && f.path in nodes && !nodes[f.path].DirNode? ==> ok)
      && ((f.Named? || f.Reached?) && f.path in nodes && nodes[f.path].DirNode? ==>
            (ok <==> FindRemovable(nodes, start, names) == Named(f.path) && Steady(nodes, start, names, f.path)))
  {
    var f := Find(nodes, start, names);
    FindLeads(nodes, start, names);
    if f.Named? && (f.path !in nodes || !nodes[f.path].DirNode?) {
      NothingBelow(nodes, f.path);
    }
    hide TreeOk, Find, FindRemovable, Removal, Steady, Lead;
    if (f.Named? || f.Reached?) && f.path in nodes && nodes[f.path].DirNode? {
      RemovalIff(nodes, start, names, f.path);
    }
  }

  lemma FindLeads(nodes: Nodes, start: Path, names: seq<string>)
    requires names != []
    ensures
      var f := Find(nodes, start, names);
      f.Reached? || (f.Named? && f.path in nodes && nodes[f.path].DirNode?) ==>
        Lead(nodes, start, names) == Dir(f.path)
  {
    var n := |names| - 1;
    assert names[..n] + [names[n]] == names;
    LeadOn(nodes, start, names[..n], names[n]);
  }

  /** The place a path acts on. */
  ghost predicate ActsOn(s: Spot, p: Path)
  {
    match s
    case Named(x) => x == p
    case Reached(x) => x == p
    case NoSpot => true
    case NoDirectory => true
  }

  /** The names without separators and single dots at the end. */
  function Base(names: seq<string>): (b: seq<string>)
    ensures |b| <= |names| && (b != [] ==> b[|b| - 1] != "" && b[|b| - 1] != ".")
  {
    if names == [] || (names[|names| - 1] != "" && names[|names| - 1] != ".") then names
    else Base(names[..|names| - 1])
  }

  lemma {:induction false} BaseLeads(nodes: Nodes, start: Path, names: seq<string>)
    ensures Lead(nodes, start, Base(names)) == Lead(nodes, start, names)
  {
    if Base(names) != names {
      BaseLeads(nodes, start, names[..|names| - 1]);
    }
  }

  /** What a path is about: the last thing it names, with a link there not followed. */
  function Subject(nodes: Nodes, start: Path, names: seq<string>): (s: Spot)
    requires names != []
  {
    var b := Base(names);
    if b == [] || b[|b| - 1] == ".." then Find(nodes, start, names) else Find(nodes, start, b)
  }

  /** A separator or a dot after a link to a directory. */
  predicate ThroughLink(nodes: Nodes, start: Path, names: seq<string>)
    requires names != []
  {
    var s := Subject(nodes, start, names);
    Find(nodes, start, names).Reached? && s.Named? && s.path in nodes && nodes[s.path].LinkNode?
  }

  /** Apart from that, a path acts on what it is about. */
  lemma SubjectIs(nodes: Nodes, start: Path, names: seq<string>)
    requires names != []
    ensures Subject(nodes, start, names) == Find(nodes, start, names) ||
            (Find(nodes, start, names).Reached? && Subject(nodes, start, names).Named?)
            || !(Find(nodes, start, names).Named? || Find(nodes, start, names).Reached?)
    ensures
      var f, s := Find(nodes, start, names), Subject(nodes, start, names);
      f.Named? || f.Reached? ==> (s.Named? || s.Reached?) && (!ThroughLink(nodes, start, names) ==> s.path == f.path)
  {
    var b, n := Base(names), |names| - 1;
    if Plain(names[n]) {
      assert b == names;
    } else if b != [] && b[|b| - 1] != ".." {
      BaseLeads(nodes, start, names);
      var k := |b| - 1;
      var w := Lead(nodes, start, b[..k]);
      assert Lead(nodes, start, b) == if w.Dir? then Enter(nodes, w.path, b[k]) else w;
    }
  }

  /** Success is never through a link: it removes exactly the node the path is about with all below it. */
  lemma RemovableIsSubject(nodes: Nodes, start: Path, names: seq<string>, q: Path)
    requires names != [] && Lead(nodes, start, names) == Dir(q) && FindRemovable(nodes, start, names).Named?
    requires
      var p := FindRemovable(nodes, start, names).path;
      p in nodes && nodes[p].DirNode?
    ensures FindRemovable(nodes, start, names).path == q && !ThroughLink(nodes, start, names)
  {
    var t := Trimmed(names);
    TrimmedLeads(nodes, start, names);
    TrimmedBase(names);
    var k := |t| - 1;
    var w := Lead(nodes, start, t[..k]);
    assert Lead(nodes, start, t) == if w.Dir? then Enter(nodes, w.path, t[k]) else w;
    assert Plain(t[k]) && Base(names) == t;
  }

  lemma {:induction false} TrimmedBase(names: seq<string>)
    ensures Trimmed(names) != [] ==> Trimmed(names)[|Trimmed(names)| - 1] != ""
    ensures Trimmed(names) != [] && !IsDot(Trimmed(names)[|Trimmed(names)| - 1]) ==> Base(names) == Trimmed(names)
  {
    if names != [] && names[|names| - 1] == "" {
      TrimmedBase(names[..|names| - 1]);
    }
  }

  // ---------- beyond what a path is about ----------

  /**
   * Deletion stays within what the path is about exactly when the path does not go on after a link to a directory,
   * or nothing is in that directory, or the first of its contents to go is the link itself.
   */
  lemma StaysWithinIff(nodes: Nodes, start: Path, names: seq<string>)
    requires TreeOk(nodes) && names != []
    requires Find(nodes, start, names).Named? || Find(nodes, start, names).Reached?
    ensures
      var f, s := Find(nodes, start, names), Subject(nodes, start, names);
      && (s.Named? || s.Reached?)
      && (RemovedWithin(nodes, Cleared(nodes, start, names).0, s.path) <==>
          (ThroughLink(nodes, start, names) ==> First(nodes, f.path) == f.path || First(nodes, f.path) == s.path))
  {
    SubjectIs(nodes, start, names);
    if ThroughLink(nodes, start, names) {
      ThroughLinkEmpties(nodes, start, names);
      FindLeads(nodes, start, names);
      hide *;
      PurgeWithinIff(nodes, start, names);
    } else {
      ClearedWithin(nodes, start, names);
    }
  }

  lemma ClearedWithin(nodes: Nodes, start: Path, names: seq<string>)
    requires TreeOk(nodes) && names != [] && (Find(nodes, start, names).Named? || Find(nodes, start, names).Reached?)
    ensures RemovedWithin(nodes, Cleared(nodes, start, names).0, Find(nodes, start, names).path)
  {
    var f := Find(nodes, start, names);
    FindLeads(nodes, start, names);
    hide TreeOk, Find, FindRemovable, Removal, Lead;
    if f.path in nodes && nodes[f.path].DirNode? {
      RemovalIff(nodes, start, names, f.path);
    }
  }

  lemma LinkIsLeaf(nodes: Nodes, start: Path, names: seq<string>)
    requires TreeOk(nodes) && names != [] && ThroughLink(nodes, start, names)
    ensures Subject(nodes, start, names).Named? && forall x :: x in nodes ==> !(Subject(nodes, start, names).path < x)
  {
    hide Find, TreeOk, Subject;
    NothingBelow(nodes, Subject(nodes, start, names).path);
  }

  /** Once the link is gone, the path leads nowhere. */
  lemma LinkGone(nodes: Nodes, start: Path, names: seq<string>)
    requires names != [] && ThroughLink(nodes, start, names)
    ensures Lead(nodes - {Subject(nodes, start, names).path}, start, names) == Absent
  {
    var b, l := Base(names), Subject(nodes, start, names).path;
    var rest := nodes - {l};
    var k := |b| - 1;
    BaseLeads(rest, start, names);
    LeadShrinks(nodes, rest, start, b[..k]);
    assert b[..k] + [b[k]] == b;
    LeadOn(rest, start, b[..k], b[k]);
  }

  lemma PurgeWithinIff(nodes: Nodes, start: Path, names: seq<string>)
    requires TreeOk(nodes) && names != [] && ThroughLink(nodes, start, names)
    requires Lead(nodes, start, names) == Dir(Find(nodes, start, names).path)
    ensures
      var q, l := Find(nodes, start, names).path, Subject(nodes, start, names).path;
      RemovedWithin(nodes, Purged(nodes, start, names, q), l) <==> First(nodes, q) == q || First(nodes, q) == l
  {
    LinkIsLeaf(nodes, start, names);
    LinkGone(nodes, start, names);
    hide TreeOk, Find, Subject, ThroughLink, Lead, First;
    var q, l := Find(nodes, start, names).path, Subject(nodes, start, names).path;
    var f := First(nodes, q);
    if f != q {
      FirstRemoved(nodes, q);
      PurgedFacts(nodes - {f}, start, names, q);
      assert f !in Purged(nodes, start, names, q);
    }
  }

  /** After a link, deletion empties the directory the link leads to as far as the path lasts, and fails. */
  lemma ThroughLinkEmpties(nodes: Nodes, start: Path, names: seq<string>)
    requires TreeOk(nodes) && names != [] && ThroughLink(nodes, start, names)
    ensures
      var q := Find(nodes, start, names).path;
      && FindRemovable(nodes, start, names) != Named(q)
      && Cleared(nodes, start, names) == (Purged(nodes, start, names, q), false)
      && (Steady(nodes, start, names, q) ==> Cleared(nodes, start, names) == (WithoutBelow(nodes, q), false))
  {
    var q, r := Find(nodes, start, names).path, FindRemovable(nodes, start, names);
    assert nodes[q].DirNode?;
    FindLeads(nodes, start, names);
    if r == Named(q) {
      RemovableIsSubject(nodes, start, names, q);
    }
    hide TreeOk, Purged, Lead, Find, FindRemovable, ThroughLink, Steady;
    RemovalIff(nodes, start, names, q);
    if Steady(nodes, start, names, q) {
      SteadyPurges(nodes, start, names, q);
    }
  }

  /** A separator after a directory makes no difference. */
  lemma SlashAfterDirectory(nodes: Nodes, start: Path, names: seq<string>)
    requires names != [] && Find(nodes, start, names).Named?
    requires var p := Find(nodes, start, names).path; p in nodes && nodes[p].DirNode?
    ensures Cleared(nodes, start, names + [""]) == Cleared(nodes, start, names)
  {
    var p := Find(nodes, start, names).path;
    FindLeads(nodes, start, names);
    FindIn(nodes, start, names, "");
    assert Find(nodes, start, names + [""]) == Reached(p);
    hide Find, FindRemovable, Lead;
    forall m: Nodes
      ensures Lead(m, start, names + [""]) == Lead(m, start, names)
    {
      SlashNames(m, start, names);
    }
    SamePurge(nodes, start, names, names + [""], p);
    SlashNames(Purged(nodes, start, names, p), start, names);
  }

  /** A separator after a link to a directory makes it empty that directory, as far as the path lasts, and fail. */
  lemma SlashAfterLink(nodes: Nodes, start: Path, names: seq<string>)
    requires TreeOk(nodes) && names != [] && Find(nodes, start, names).Named?
    requires var p := Find(nodes, start, names).path; p in nodes && nodes[p].LinkNode? && nodes[p].target.To?
    requires var t := nodes[Find(nodes, start, names).path].target.path; t in nodes && nodes[t].DirNode?
    ensures ThroughLink(nodes, start, names + [""]) && Subject(nodes, start, names + [""]) == Find(nodes, start, names)
    ensures
      var t := nodes[Find(nodes, start, names).path].target.path;
      && Find(nodes, start, names + [""]) == Reached(t)
      && Cleared(nodes, start, names + [""]) == (Purged(nodes, start, names + [""], t), false)
      && (Steady(nodes, start, names + [""], t) ==>
            Cleared(nodes, start, names + [""]) == (WithoutBelow(nodes, t), false))
  {
    var n := |names| - 1;
    assert names[..n] + [names[n]] == names;
    LeadOn(nodes, start, names[..n], names[n]);
    FindIn(nodes, start, names, "");
    assert (names + [""])[..|names|] == names;
    assert Base(names + [""]) == Base(names) == names;
    hide TreeOk, Cleared, Steady, Purged;
    ThroughLinkEmpties(nodes, start, names + [""]);
  }
}
