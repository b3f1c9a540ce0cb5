/** A disk that deletions change: nodes named by where they are, and path texts that the system resolves to them. */
module Disks {
  import opened FileSystems

  /** The names from the root of the file system down to a node. */
  type Path = seq<string>

  // ---------- path texts ----------

  /** The components of a path's text; separators in a row and at the ends leave empty ones. */
  function Split(text: string): (names: seq<string>)
    ensures names != []
    decreases |text|
  {
    var n := |text|;
    if n == 0 then [""]
    else
      var p := Split(text[..n - 1]);
      if text[n - 1] == '/' then p + [""] else p[..|p| - 1] + [p[|p| - 1] + [text[n - 1]]]
  }

  lemma {:induction false} SplitName(text: string, name: string)
    requires '/' !in name
    ensures Split(text + "/" + name) == Split(text) + [name]
    decreases |name|
  {
    var whole, n := text + "/" + name, |name|;
    if n == 0 {
      assert whole[..|whole| - 1] == text;
    } else {
      assert name[n - 1] in name;
      assert forall c :: c in name[..n - 1] ==> c in name;
      SplitName(text, name[..n - 1]);
      assert whole[..|whole| - 1] == text + "/" + name[..n - 1];
      assert name[..n - 1] + [name[n - 1]] == name;
    }
  }

  lemma {:induction false} SplitPlain(name: string)
    requires '/' !in name
    ensures Split(name) == [name]
    decreases |name|
  {
    var n := |name|;
    if n > 0 {
      assert name[n - 1] in name;
      assert forall c :: c in name[..n - 1] ==> c in name;
      SplitPlain(name[..n - 1]);
      assert name[..n - 1] + [name[n - 1]] == name;
    }
  }

  /** Where the resolution of a text starts: at the root or in the working directory. */
  function StartOf(cwd: Path, text: string): (p: Path)
  {
    if text != "" && text[0] == '/' then [] else cwd
  }

  /** A longer text starts in the same place and has one more component. */
  lemma ExtendText(cwd: Path, text: string, name: string)
    requires text != "" && '/' !in name
    ensures StartOf(cwd, text + "/" + name) == StartOf(cwd, text) && Split(text + "/" + name) == Split(text) + [name]
  {
    SplitName(text, name);
  }

  // ---------- nodes ----------

  datatype Entry = Entry(name: string, dtype: DirentType)

  /** Where a link leads in the end. */
  datatype Target = Nowhere | To(path: Path)

  /** A directory's listing names all its children, and perhaps some that are gone. */
  datatype Node = FileNode | LinkNode(target: Target) | DirNode(listing: seq<Entry>)

  type Nodes = map<Path, Node>

  predicate Listed(listing: seq<Entry>, name: string)
  {
    exists i :: 0 <= i < |listing| && listing[i].name == name
  }

  predicate Plain(name: string)
  {
    name != "" && !IsDot(name)
  }

  ghost predicate EntryOk(nodes: Nodes, d: Path, e: Entry)
  {
    && e.name != "" && '/' !in e.name && '\0' !in e.name
    && (IsDot(e.name) ==> e.dtype.DtDir? || e.dtype.DtUnknown?)
    && (d + [e.name] in nodes && e.dtype.DtDir? ==> nodes[d + [e.name]].DirNode?)
    && (d + [e.name] in nodes && (e.dtype.DtFile? || e.dtype.DtLink?) ==> !nodes[d + [e.name]].DirNode?)
  }

  /** Node `q` hangs in a directory that lists it. */
  ghost predicate ParentOk(nodes: Nodes, q: Path)
    requires q != []
  {
    var d, name := q[..|q| - 1], q[|q| - 1];
    d in nodes && nodes[d].DirNode? && Plain(name) && Listed(nodes[d].listing, name)
  }

  ghost predicate ListingOk(nodes: Nodes, d: Path)
  {
    d in nodes && nodes[d].DirNode? ==>
      forall i :: 0 <= i < |nodes[d].listing| ==> EntryOk(nodes, d, nodes[d].listing[i])
  }

  /** The nodes form a tree. */
  ghost predicate TreeOk(nodes: Nodes)
  {
    && (forall q {:trigger ParentOk(nodes, q)} :: q in nodes && q != [] ==> ParentOk(nodes, q))
    && (forall d {:trigger ListingOk(nodes, d)} :: d in nodes ==> ListingOk(nodes, d))
  }

  ghost function Without(nodes: Nodes, p: Path): (r: Nodes)
  {
    map q | q in nodes && !(p <= q) :: nodes[q]
  }

  ghost function WithoutBelow(nodes: Nodes, p: Path): (r: Nodes)
  {
    map q | q in nodes && !(p < q) :: nodes[q]
  }

  /** Nothing was added or changed. */
  ghost predicate Shrunk(before: Nodes, after: Nodes)
  {
    forall q :: q in after ==> q in before && after[q] == before[q]
  }

  /** Only nodes at or below `p` are gone, and nothing else changed. */
  ghost predicate RemovedWithin(before: Nodes, after: Nodes, p: Path)
  {
    Shrunk(before, after) && forall q :: q in before && !(p <= q) ==> q in after
  }

  /** Whatever is below `p` has its way down from `p` in the tree. */
  lemma {:induction false} ChildOnTheWay(nodes: Nodes, p: Path, q: Path)
    requires TreeOk(nodes) && q in nodes && p < q
    ensures q[..|p| + 1] in nodes && ParentOk(nodes, q[..|p| + 1]) && p in nodes && nodes[p].DirNode?
    decreases |q|
  {
    assert ParentOk(nodes, q);
    var d := q[..|q| - 1];
    if |d| > |p| {
      ChildOnTheWay(nodes, p, d);
      assert d[..|p| + 1] == q[..|p| + 1];
    } else {
      assert q[..|p| + 1] == q && d == p;
    }
  }

  /** Removing a node with nothing below it leaves a tree. */
  lemma LeafRemoved(nodes: Nodes, p: Path)
    requires TreeOk(nodes) && forall q :: q in nodes ==> !(p < q)
    ensures TreeOk(nodes - {p})
  {
    var rest := nodes - {p};
    forall q | q in rest && q != []
      ensures ParentOk(rest, q)
    {
      assert ParentOk(nodes, q) && !(p < q);
    }
    forall d | d in rest
      ensures ListingOk(rest, d)
    {
      assert ListingOk(nodes, d);
    }
  }

  /** Nothing hangs below what is not a directory. */
  lemma NothingBelow(nodes: Nodes, c: Path)
    requires TreeOk(nodes) && (c in nodes ==> !nodes[c].DirNode?)
    ensures forall q :: q in nodes ==> !(c < q)
    ensures Without(nodes, c) == nodes - {c}
  {
    forall q | q in nodes
      ensures !(c < q) && (c <= q <==> q == c)
    {
      if c < q {
        ChildOnTheWay(nodes, c, q);
      }
    }
  }

  // ---------- resolution ----------

  datatype Where = Dir(path: Path) | Absent | NotDir

  function DirAt(nodes: Nodes, p: Path): (w: Where)
    ensures w.Dir? ==> w.path == p && p in nodes && nodes[p].DirNode?
  {
    if p !in nodes then Absent else if nodes[p].DirNode? then Dir(p) else NotDir
  }

  /** Goes from a directory into what a name leads to; links are followed. */
  function Enter(nodes: Nodes, d: Path, name: string): (w: Where)
    requires d in nodes && nodes[d].DirNode?
    ensures w.Dir? ==> w.path in nodes && nodes[w.path].DirNode?
  {
    if name == "" || name == "." then Dir(d)
    else if name == ".." then DirAt(nodes, if d == [] then [] else d[..|d| - 1])
    else if d + [name] !in nodes then Absent
    else
      match nodes[d + [name]]
      case FileNode => NotDir
      case DirNode(_) => Dir(d + [name])
      case LinkNode(target) => if target.To? then DirAt(nodes, target.path) else Absent
  }

  /** The directory that names lead to. */
  function Lead(nodes: Nodes, start: Path, names: seq<string>): (w: Where)
    ensures w.Dir? ==> w.path in nodes && nodes[w.path].DirNode?
  {
    if names == [] then DirAt(nodes, start)
    else
      var w := Lead(nodes, start, names[..|names| - 1]);
      if w.Dir? then Enter(nodes, w.path, names[|names| - 1]) else w
  }

  lemma LeadOn(nodes: Nodes, start: Path, names: seq<string>, name: string)
    ensures
      var w := Lead(nodes, start, names);
      Lead(nodes, start, names + [name]) == if w.Dir? then Enter(nodes, w.path, name) else w
  {
    assert (names + [name])[..|names|] == names;
  }

  /** What a text names: an entry of a directory, itself not followed, or after a separator or dot entry a directory. */
  datatype Spot = Named(path: Path) | Reached(path: Path) | NoSpot | NoDirectory

  function SpotOf(w: Where): (s: Spot)
  {
    match w
    case Dir(p) => Reached(p)
    case Absent => NoSpot
    case NotDir => NoDirectory
  }

  function Find(nodes: Nodes, start: Path, names: seq<string>): (s: Spot)
    requires names != []
    ensures s.Reached? ==> s.path in nodes && nodes[s.path].DirNode?
  {
    var n := |names| - 1;
    if Plain(names[n]) then
      var w := Lead(nodes, start, names[..n]);
      if w.Dir? then Named(w.path + [names[n]]) else SpotOf(w)
    else SpotOf(Lead(nodes, start, names))
  }

  /** A plain name after names that lead to a directory. */
  lemma FindIn(nodes: Nodes, start: Path, names: seq<string>, name: string)
    ensures
      var w := Lead(nodes, start, names);
      && (Plain(name) ==> Find(nodes, start, names + [name]) == if w.Dir? then Named(w.path + [name]) else SpotOf(w))
      && (!Plain(name) ==>
            Find(nodes, start, names + [name]) == SpotOf(if w.Dir? then Enter(nodes, w.path, name) else w))
  {
    assert (names + [name])[..|names|] == names;
    LeadOn(nodes, start, names, name);
  }

  lemma FindSingle(nodes: Nodes, start: Path, name: string)
    requires start in nodes && nodes[start].DirNode? && Plain(name)
    ensures Find(nodes, start, [name]) == Named(start + [name])
  {
    assert [name][..0] == [];
  }

  function Trimmed(names: seq<string>): (t: seq<string>)
    ensures |t| <= |names|
  {
    if names == [] || names[|names| - 1] != "" then names else Trimmed(names[..|names| - 1])
  }

  /** What a directory removal means: separators at the end are dropped and the last link is not followed. */
  function FindRemovable(nodes: Nodes, start: Path, names: seq<string>): (s: Spot)
  {
    var t := Trimmed(names);
    if t == [] || IsDot(t[|t| - 1]) then NoDirectory else Find(nodes, start, t)
  }

  lemma {:induction false} TrimmedLeads(nodes: Nodes, start: Path, names: seq<string>)
    ensures Lead(nodes, start, Trimmed(names)) == Lead(nodes, start, names)
  {
    if names != [] && names[|names| - 1] == "" {
      TrimmedLeads(nodes, start, names[..|names| - 1]);
    }
  }

  /** When nodes disappear, a text leads where it did or nowhere. */
  lemma {:induction false} LeadShrinks(before: Nodes, after: Nodes, start: Path, names: seq<string>)
    requires Shrunk(before, after)
    ensures Lead(after, start, names) == Lead(before, start, names) || Lead(after, start, names) == Absent
    decreases |names|
  {
    if names != [] {
      LeadShrinks(before, after, start, names[..|names| - 1]);
    }
  }

  // ---------- system calls ----------

  datatype Errno = Fine | NoEntry | Failed

  /** The kind of what is named. */
  function Stat(nodes: Nodes, s: Spot): (r: (Errno, bool))
  {
    match s
    case Named(p) => if p in nodes then (Fine, nodes[p].DirNode?) else (NoEntry, false)
    case Reached(_) => (Fine, true)
    case NoSpot => (NoEntry, false)
    case NoDirectory => (Failed, false)
  }

  function Unlinked(nodes: Nodes, s: Spot): (r: (Nodes, Errno))
  {
    match s
    case Named(p) =>
      if p !in nodes then (nodes, NoEntry) else if nodes[p].DirNode? then (nodes, Failed) else (nodes - {p}, Fine)
    case NoSpot => (nodes, NoEntry)
    case _ => (nodes, Failed)
  }

  function Opened(nodes: Nodes, w: Where): (r: (Errno, seq<Entry>))
    requires w.Dir? ==> w.path in nodes && nodes[w.path].DirNode?
  {
    match w
    case Dir(p) => (Fine, nodes[p].listing)
    case Absent => (NoEntry, [])
    case NotDir => (Failed, [])
  }

  function DirectoryRemoved(nodes: Nodes, s: Spot): (r: (Nodes, Errno))
  {
    match s
    case Named(p) =>
      if p !in nodes then (nodes, NoEntry)
      else if !nodes[p].DirNode? || exists q :: q in nodes && p < q then (nodes, Failed)
      else (nodes - {p}, Fine)
    case NoSpot => (nodes, NoEntry)
    case _ => (nodes, Failed)
  }

  /** Each call may also fail for reasons of its own; such failures are counted. */
  class Disk {
    const cwd: Path
    var nodes: Nodes
    ghost var faults: nat

    ghost predicate Valid()
      reads this
    {
      TreeOk(nodes)
    }

    constructor (nodes: Nodes, cwd: Path)
      requires TreeOk(nodes)
      ensures Valid() && this.nodes == nodes && this.cwd == cwd && faults == 0
    {
      this.nodes, this.cwd := nodes, cwd;
      faults := 0;
    }

    function Spotted(text: string): (s: Spot)
      reads `nodes
    {
      if text == "" then NoSpot else Find(nodes, StartOf(cwd, text), Split(text))
    }

    method Lstat(text: string) returns (e: Errno, isDirectory: bool)
      modifies `faults
      ensures if faults == old(faults) then (e, isDirectory) == Stat(nodes, Spotted(text)) else e == Failed
      ensures faults >= old(faults)
    {
      if * {
        faults := faults + 1;
        return Failed, false;
      }
      var r := Stat(nodes, Spotted(text));
      return r.0, r.1;
    }

    /** Removes a node that is not a directory. */
    method Unlink(text: string) returns (e: Errno)
      requires Valid()
      modifies this
      ensures Valid() && faults >= old(faults)
      ensures if faults == old(faults) then (nodes, e) == Unlinked(old(nodes), old(Spotted(text)))
              else e == Failed && nodes == old(nodes)
    {
      if * {
        faults := faults + 1;
        return Failed;
      }
      var s := Spotted(text);
      if s.Named? && s.path in nodes && !nodes[s.path].DirNode? {
        NothingBelow(nodes, s.path);
        LeafRemoved(nodes, s.path);
      }
      var r := Unlinked(nodes, s);
      nodes := r.0;
      return r.1;
    }

    /** The entries of a directory. */
    method OpenDirectory(text: string) returns (e: Errno, listing: seq<Entry>)
      modifies `faults
      ensures faults >= old(faults)
      ensures if faults == old(faults) then (e, listing) == Opened(nodes, Lead(nodes, StartOf(cwd, text), Split(text)))
              else e == Failed
    {
      if * {
        faults := faults + 1;
        return Failed, [];
      }
      var r := Opened(nodes, Lead(nodes, StartOf(cwd, text), Split(text)));
      return r.0, r.1;
    }

    /** A call on an open directory. */
    method ReadOrClose() returns (ok: bool)
      modifies `faults
      ensures if ok then faults == old(faults) else faults > old(faults)
    {
      ok := *;
      if !ok {
        faults := faults + 1;
      }
    }

    /** Removes an empty directory. */
    method RemoveDirectory(text: string) returns (e: Errno)
      requires Valid()
      modifies this
      ensures Valid() && faults >= old(faults)
      ensures
        if faults == old(faults) then
          (nodes, e) == DirectoryRemoved(old(nodes), FindRemovable(old(nodes), StartOf(cwd, text), Split(text)))
        else e == Failed && nodes == old(nodes)
    {
      if * {
        faults := faults + 1;
        return Failed;
      }
      var s := FindRemovable(nodes, StartOf(cwd, text), Split(text));
      var r := DirectoryRemoved(nodes, s);
      if r.1 == Fine {
        LeafRemoved(nodes, s.path);
      }
      nodes := r.0;
      return r.1;
    }
  }
}
