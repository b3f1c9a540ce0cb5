/** Disks on which deletion goes beyond what its path is about, or stops half way without any call failing. */
module DeletionExamples {
  import opened FileSystems
  import opened PathBuffers
  import opened Disks
  import opened Purges
  import opened DeletionSpec
  import opened RecursiveDelete

  // ---------- building trees ----------

  predicate NameOk(e: Entry)
  {
    && e.name != "" && '/' !in e.name && '\0' !in e.name
    && (IsDot(e.name) ==> e.dtype.DtDir? || e.dtype.DtUnknown?)
  }

  predicate NamesOk(listing: seq<Entry>)
  {
    forall i :: 0 <= i < |listing| ==> NameOk(listing[i])
  }

  ghost predicate TypeOk(e: Entry, node: Node)
  {
    (e.dtype.DtDir? ==> node.DirNode?) && (e.dtype.DtFile? || e.dtype.DtLink? ==> !node.DirNode?)
  }

  lemma LoneRoot(listing: seq<Entry>)
    requires NamesOk(listing)
    ensures TreeOk(map[[] := DirNode(listing)])
  {
    var nodes: Nodes := map[[] := DirNode(listing)];
    assert ListingOk(nodes, []);
  }

  /** A listed child that was missing is put in its place. */
  lemma ChildAdded(nodes: Nodes, d: Path, name: string, node: Node)
    requires TreeOk(nodes) && d in nodes && nodes[d].DirNode? && Plain(name) && d + [name] !in nodes
    requires Listed(nodes[d].listing, name) && (node.DirNode? ==> NamesOk(node.listing))
    requires forall e :: e in nodes[d].listing && e.name == name ==> TypeOk(e, node)
    ensures TreeOk(nodes[d + [name] := node])
  {
    var c := d + [name];
    var after := nodes[c := node];
    NothingBelow(nodes, c);
    assert c[..|c| - 1] == d && c[|c| - 1] == name;
    forall q | q in after && q != []
      ensures ParentOk(after, q)
    {
      assert q != c ==> ParentOk(nodes, q);
      assert q[..|q| - 1] == c ==> c < q;
    }
    forall x | x in after
      ensures ListingOk(after, x)
    {
      ChildListed(nodes, d, name, node, x);
    }
  }

  lemma ChildListed(nodes: Nodes, d: Path, name: string, node: Node, x: Path)
    requires x in nodes ==> ListingOk(nodes, x)
    requires d in nodes && nodes[d].DirNode? && (node.DirNode? ==> NamesOk(node.listing))
    requires forall e :: e in nodes[d].listing && e.name == name ==> TypeOk(e, node)
    requires forall q :: q in nodes ==> !(d + [name] < q)
    requires d + [name] !in nodes
    ensures ListingOk(nodes[d + [name] := node], x)
  {
    var c := d + [name];
    var after := nodes[c := node];
    if x in after && after[x].DirNode? {
      forall i | 0 <= i < |after[x].listing|
        ensures EntryOk(after, x, after[x].listing[i])
      {
        var e := after[x].listing[i];
        if x == c {
          assert c < c + [e.name];
        } else {
          assert EntryOk(nodes, x, e);
          if x + [e.name] == c {
            assert (x + [e.name])[..|x|] == x && c[..|d|] == d;
            assert (x + [e.name])[|x|] == e.name && c[|d|] == name;
          }
        }
      }
    }
  }

  /** The first entry goes first when nothing is in it. */
  lemma FirstEntry(nodes: Nodes, q: Path)
    requires q in nodes && nodes[q].DirNode? && nodes[q].listing != []
    requires
      var name := nodes[q].listing[0].name;
      !IsDot(name) && q + [name] in nodes && (nodes[q + [name]].DirNode? ==> nodes[q + [name]].listing == [])
    ensures First(nodes, q) == q + [nodes[q].listing[0].name]
  {
    var c := q + [nodes[q].listing[0].name];
    assert FirstFrom(nodes, c, 0) == c;
  }

  lemma LeadNothing(nodes: Nodes, start: Path)
    ensures Lead(nodes, start, []) == DirAt(nodes, start)
  {
  }

  predicate Name(name: string)
  {
    Plain(name) && '/' !in name && NUL !in name
  }

  // ---------- a link with a separator after it ----------

  /** A link beside the directory it leads to, with a file in that. */
  function Linked(link: string, dir: string, file: string): (nodes: Nodes)
  {
    map[[] := DirNode([Entry(link, DtLink), Entry(dir, DtDir)]),
        [link] := LinkNode(To([dir])),
        [dir] := DirNode([Entry(file, DtFile)]),
        [dir, file] := FileNode]
  }

  lemma LinkedIsTree(link: string, dir: string, file: string)
    requires Name(link) && Name(dir) && Name(file) && link != dir
    ensures TreeOk(Linked(link, dir, file))
  {
    hide TreeOk;
    var listing, inner := [Entry(link, DtLink), Entry(dir, DtDir)], [Entry(file, DtFile)];
    assert listing[0].name == link && listing[1].name == dir && inner[0].name == file;
    LoneRoot(listing);
    var one := map[[] := DirNode(listing)];
    assert [] + [link] == [link] && [] + [dir] == [dir] && [dir] + [file] == [dir, file];
    ChildAdded(one, [], link, LinkNode(To([dir])));
    var two := one[[link] := LinkNode(To([dir]))];
    ChildAdded(two, [], dir, DirNode(inner));
    var three := two[[dir] := DirNode(inner)];
    ChildAdded(three, [dir], file, FileNode);
    assert Linked(link, dir, file) == three[[dir, file] := FileNode];
  }

  lemma LinkIsFound(link: string, dir: string, file: string)
    requires Name(link) && Name(dir) && Name(file) && link != dir
    ensures FindOf(Linked(link, dir, file), [], link) == Named([link])
  {
    hide Split, Find;
    SplitPlain(link);
    FindSingle(Linked(link, dir, file), [], link);
    assert [] + [link] == [link];
  }

  lemma EmptiedDir(link: string, dir: string, file: string)
    requires link != dir
    ensures
      var nodes := Linked(link, dir, file);
      && WithoutBelow(nodes, [dir]) == nodes - {[dir, file]}
      && !RemovedWithin(nodes, nodes - {[dir, file]}, [link])
  {
    var nodes, f := Linked(link, dir, file), [dir, file];
    assert f[0] == dir && [link][0] == link;
    assert f in nodes && !([link] <= f) && f !in nodes - {f} && [dir] < f;
  }

  lemma LinkedStaysSteady(link: string, dir: string, file: string)
    requires Name(link) && Name(dir) && Name(file) && link != dir
    ensures SteadyOf(Linked(link, dir, file), [], link + "/", [dir])
  {
    hide Split, Find, Lead;
    var rest := WithoutBelow(Linked(link, dir, file), [dir]);
    assert [dir][0] == dir && [link][0] == link && [] + [link] == [link];
    assert [] in rest && [link] in rest && [dir] in rest;
    SplitPlain(link);
    SplitName(link, "");
    assert link + "/" + "" == link + "/";
    LeadNothing(rest, []);
    LeadOn(rest, [], [], link);
    LeadOn(rest, [], [link], "");
  }

  /** Deleting "link/" empties the directory the link leads to, outside of what the path is about, and fails. */
  lemma LinkSlashEmptiesTheTarget(link: string, dir: string, file: string)
    requires Name(link) && Name(dir) && Name(file) && link != dir
    ensures
      var nodes, path := Linked(link, dir, file), link + "/";
      var after := nodes - {[dir, file]};
      && TreeOk(nodes) && SubjectOf(nodes, [], path) == Named([link]) && GoesThroughLink(nodes, [], path)
      && FindOf(nodes, [], path) == Reached([dir])
      && ClearedAs(nodes, after, [], path, false) && !RemovedWithin(nodes, after, [link])
  {
    hide Split, Cleared, ThroughLink, Subject, Find, TreeOk, ClearedAs, SubjectOf, GoesThroughLink, FindOf, SteadyOf;
    LinkedIsTree(link, dir, file);
    LinkIsFound(link, dir, file);
    LinkedStaysSteady(link, dir, file);
    LinkSlash(Linked(link, dir, file), [], link, [link], [dir]);
    EmptiedDir(link, dir, file);
  }

  lemma LinkedFits(link: string, dir: string, file: string, n: nat)
    requires n + 1 + |file| < PATH_MAX && Name(dir) && Name(link) && Name(file) && link != dir
    ensures Fits(Linked(link, dir, file), [dir], n)
  {
    var nodes := Linked(link, dir, file);
    forall d, e, length: nat | Reaches(nodes, [dir], n, d, e, length)
      ensures length < PATH_MAX
    {
      assert [dir] <= d ==> d != [] && d[0] == dir;
      assert d == [dir];
      assert nodes[[dir]].listing[0].name == file;
    }
  }

  /** The deletion of such a path: without faults it reports failure with the file gone. */
  method DeleteLinkSlash(link: string, dir: string, file: string) returns (ok: bool, disk: Disk)
    requires Name(link) && Name(dir) && Name(file) && link != dir && |link| + |file| + 2 < PATH_MAX
    ensures disk.faults == 0 ==> !ok && disk.nodes == Linked(link, dir, file) - {[dir, file]}
  {
    hide Split, Cleared, ThroughLink, Subject, Find, TreeOk, Fits, Lead, SubjectOf, GoesThroughLink, FindOf, ClearedAs;
    LinkSlashEmptiesTheTarget(link, dir, file);
    LinkedFits(link, dir, file, |link| + 1);
    disk := new Disk(Linked(link, dir, file), []);
    ok := Delete(disk, link + "/");
    OneOutcome(Linked(link, dir, file), [], link + "/");
  }

  lemma OneOutcome(nodes: Nodes, cwd: Path, path: string)
    ensures forall a, b, ok, ok' :: ClearedAs(nodes, a, cwd, path, ok) && ClearedAs(nodes, b, cwd, path, ok') ==>
                                      a == b && ok == ok'
  {
  }

  // ---------- a link into the directory it leads to ----------

  /** A directory that holds a link to itself, listed before a file. */
  function Looped(dir: string, link: string, file: string): (nodes: Nodes)
  {
    map[[] := DirNode([Entry(dir, DtDir)]),
        [dir] := DirNode([Entry(link, DtLink), Entry(file, DtFile)]),
        [dir, link] := LinkNode(To([dir])),
        [dir, file] := FileNode]
  }

  lemma LoopedIsTree(dir: string, link: string, file: string)
    requires Name(dir) && Name(link) && Name(file) && link != file
    ensures TreeOk(Looped(dir, link, file))
  {
    hide TreeOk;
    var outer, inner := [Entry(dir, DtDir)], [Entry(link, DtLink), Entry(file, DtFile)];
    assert outer[0].name == dir && inner[0].name == link && inner[1].name == file;
    LoneRoot(outer);
    var one := map[[] := DirNode(outer)];
    assert [] + [dir] == [dir] && [dir] + [link] == [dir, link] && [dir] + [file] == [dir, file];
    ChildAdded(one, [], dir, DirNode(inner));
    var two := one[[dir] := DirNode(inner)];
    ChildAdded(two, [dir], link, LinkNode(To([dir])));
    var three := two[[dir, link] := LinkNode(To([dir]))];
    assert [dir, file][1] == file && [dir, link][1] == link;
    ChildAdded(three, [dir], file, FileNode);
    assert Looped(dir, link, file) == three[[dir, file] := FileNode];
  }

  lemma LoopedIsFound(dir: string, link: string, file: string)
    requires Name(dir) && Name(link) && Name(file) && link != file
    ensures FindOf(Looped(dir, link, file), [], dir + "/" + link) == Named([dir, link])
  {
    hide Split, Find, Lead;
    var nodes := Looped(dir, link, file);
    SplitPlain(dir);
    SplitName(dir, link);
    LeadNothing(nodes, []);
    LeadOn(nodes, [], [], dir);
    assert [] + [dir] == [dir] && [dir] + [link] == [dir, link];
    FindIn(nodes, [], [dir], link);
  }

  /**
   * Deleting "dir/link/" there removes the link, by which the path is lost: the rest stays, the deletion fails, and
   * no more is gone than what the path is about.
   */
  lemma LoopLosesItself(dir: string, link: string, file: string)
    requires Name(dir) && Name(link) && Name(file) && link != file
    ensures
      var nodes, path := Looped(dir, link, file), dir + "/" + link + "/";
      var after := nodes - {[dir, link]};
      && TreeOk(nodes) && SubjectOf(nodes, [], path) == Named([dir, link]) && GoesThroughLink(nodes, [], path)
      && ClearedAs(nodes, after, [], path, false) && RemovedWithin(nodes, after, [dir, link]) && [dir, file] in after
  {
    hide Split, Cleared, ThroughLink, Subject, Find, TreeOk, ClearedAs, Purged, Lead, Steady;
    var nodes, text := Looped(dir, link, file), dir + "/" + link;
    var path, l := text + "/", [dir, link];
    LoopedIsTree(dir, link, file);
    LoopedIsFound(dir, link, file);
    LinkSlash(nodes, [], text, l, [dir]);
    assert [dir] + [link] == l && [dir, file][1] == file && l[1] == link;
    FirstEntry(nodes, [dir]);
    LinkGone(nodes, StartOf([], path), Split(path));
    FindLeads(nodes, StartOf([], path), Split(path));
    OneStep(nodes, StartOf([], path), Split(path), [dir]);
  }

  /** A purge that ends with its first step. */
  lemma OneStep(nodes: Nodes, start: Path, names: seq<string>, q: Path)
    requires Lead(nodes, start, names) == Dir(q) && First(nodes, q) != q
    requires Lead(nodes - {First(nodes, q)}, start, names) == Absent
    ensures Purged(nodes, start, names, q) == nodes - {First(nodes, q)}
  {
    hide Lead, First;
  }

  // ---------- a path through the directory's own contents ----------

  /** From `d` into its directory `a`, on into the directory `b` there, back up and into `a` again. */
  function Detour(names: seq<string>, a: string, b: string): (way: seq<string>)
  {
    names + [a] + [b] + [".."] + [".."] + [a]
  }

  /** Such a path names the directory, and loses it with its first contents. */
  lemma DetourIsLost(nodes: Nodes, start: Path, names: seq<string>, d: Path, a: string, b: string)
    requires Lead(nodes, start, names) == Dir(d) && Plain(a) && Plain(b)
    requires d + [a] in nodes && nodes[d + [a]].DirNode? && d + [a] + [b] in nodes && nodes[d + [a] + [b]].DirNode?
    ensures
      var way, q := Detour(names, a, b), d + [a];
      && Find(nodes, start, way) == Named(q) && Lead(nodes, start, way) == Dir(q)
      && Lead(nodes - {q + [b]}, start, way) == Absent && !Steady(nodes, start, way, q)
  {
    hide Find, Lead;
    var q, c := d + [a], d + [a] + [b];
    assert c[..|c| - 1] == q && q[..|q| - 1] == d;
    var n1, n2 := names + [a], names + [a] + [b];
    var n3, n4 := n2 + [".."], n2 + [".."] + [".."];
    LeadOn(nodes, start, names, a);
    LeadOn(nodes, start, n1, b);
    LeadOn(nodes, start, n2, "..");
    LeadOn(nodes, start, n3, "..");
    FindIn(nodes, start, n4, a);
    LeadOn(nodes, start, n4, a);
    LostAt(nodes, nodes - {c}, start, names, a, b, c);
    LostAt(nodes, WithoutBelow(nodes, q), start, names, a, b, c);
  }

  lemma LostAt(nodes: Nodes, after: Nodes, start: Path, names: seq<string>, a: string, b: string, c: Path)
    requires Shrunk(nodes, after) && Lead(nodes, start, names + [a] + [b]) == Dir(c) && c !in after
    ensures Lead(after, start, Detour(names, a, b)) == Absent
  {
    hide Lead;
    var n2 := names + [a] + [b];
    LeadShrinks(nodes, after, start, n2);
    LeadOn(after, start, n2, "..");
    LeadOn(after, start, n2 + [".."], "..");
    LeadOn(after, start, n2 + [".."] + [".."], a);
  }

  /** A directory with an empty directory, listed first, and a file. */
  function Wound(a: string, b: string, file: string): (nodes: Nodes)
  {
    map[[] := DirNode([Entry(a, DtDir)]),
        [a] := DirNode([Entry(b, DtDir), Entry(file, DtFile)]),
        [a, b] := DirNode([]),
        [a, file] := FileNode]
  }

  lemma WoundIsTree(a: string, b: string, file: string)
    requires Name(a) && Name(b) && Name(file) && b != file
    ensures TreeOk(Wound(a, b, file))
  {
    hide TreeOk;
    var outer, inner := [Entry(a, DtDir)], [Entry(b, DtDir), Entry(file, DtFile)];
    assert outer[0].name == a && inner[0].name == b && inner[1].name == file;
    LoneRoot(outer);
    var one := map[[] := DirNode(outer)];
    assert [] + [a] == [a] && [a] + [b] == [a, b] && [a] + [file] == [a, file];
    ChildAdded(one, [], a, DirNode(inner));
    var two := one[[a] := DirNode(inner)];
    ChildAdded(two, [a], b, DirNode([]));
    var three := two[[a, b] := DirNode([])];
    assert [a, file][1] == file && [a, b][1] == b;
    ChildAdded(three, [a], file, FileNode);
    assert Wound(a, b, file) == three[[a, file] := FileNode];
  }

  function WoundPath(a: string, b: string): (path: string)
  {
    a + "/" + b + "/" + ".." + "/" + ".." + "/" + a
  }

  lemma WoundSplit(a: string, b: string)
    requires Name(a) && Name(b)
    ensures Split(WoundPath(a, b)) == Detour([], a, b) && StartOf([], WoundPath(a, b)) == [] && WoundPath(a, b) != ""
  {
    hide Split;
    assert [] + [a] == [a];
    SplitPlain(a);
    SplitName(a, b);
    SplitName(a + "/" + b, "..");
    SplitName(a + "/" + b + "/" + "..", "..");
    SplitName(a + "/" + b + "/" + ".." + "/" + "..", a);
  }

  /**
   * Deleting "a/b/../../a" there removes `b`, by which the path is lost: the file stays, and the deletion of a plain
   * directory fails half way although no call failed for reasons of its own.
   */
  lemma DetourStopsHalfWay(a: string, b: string, file: string)
    requires Name(a) && Name(b) && Name(file) && b != file
    ensures
      var nodes, path := Wound(a, b, file), WoundPath(a, b);
      var after := nodes - {[a, b]};
      && TreeOk(nodes) && FindOf(nodes, [], path) == Named([a]) && !SteadyOf(nodes, [], path, [a])
      && ClearedAs(nodes, after, [], path, false) && [a, file] in after
  {
    hide Split, Cleared, Find, TreeOk, Purged, Lead, Steady, Detour, WoundPath;
    var nodes, path := Wound(a, b, file), WoundPath(a, b);
    WoundIsTree(a, b, file);
    WoundSplit(a, b);
    LeadNothing(nodes, []);
    assert [] + [a] == [a] && [a] + [b] == [a, b] && [a, file][1] == file && [a, b][1] == b;
    DetourIsLost(nodes, [], [], [], a, b);
    FirstEntry(nodes, [a]);
    OneStep(nodes, [], Detour([], a, b), [a]);
    SucceedsIff(nodes, [], Detour([], a, b));
    FailedIsPurged(nodes, [], Detour([], a, b));
  }

  lemma WoundFits(a: string, b: string, file: string, n: nat)
    requires Name(a) && Name(b) && Name(file) && b != file && n + 2 + |b| + |file| < PATH_MAX
    ensures Fits(Wound(a, b, file), [a], n)
  {
    var nodes := Wound(a, b, file);
    forall d, e, length: nat | Reaches(nodes, [a], n, d, e, length)
      ensures length < PATH_MAX
    {
      assert d == [a] || d == [a, b];
      assert nodes[[a]].listing[0].name == b && nodes[[a]].listing[1].name == file;
      assert [a, b][..1] == [a] && [a, b][1] == b && Extent([a], [a]) == 0 && Extent([a], [a, b]) == 1 + |b|;
    }
  }

  /** The deletion of such a path: without faults it reports failure with one directory gone and the file there. */
  method DeleteDetour(a: string, b: string, file: string) returns (ok: bool, disk: Disk)
    requires Name(a) && Name(b) && Name(file) && b != file && |WoundPath(a, b)| + 2 + |b| + |file| < PATH_MAX
    ensures disk.faults == 0 ==> !ok && disk.nodes == Wound(a, b, file) - {[a, b]}
  {
    hide Split, Cleared, Find, TreeOk, Fits, Lead, FindOf, ClearedAs, Wound;
    DetourStopsHalfWay(a, b, file);
    WoundFits(a, b, file, |WoundPath(a, b)|);
    disk := new Disk(Wound(a, b, file), []);
    assert NUL !in WoundPath(a, b);
    ok := Delete(disk, WoundPath(a, b));
    OneOutcome(Wound(a, b, file), [], WoundPath(a, b));
  }
}
