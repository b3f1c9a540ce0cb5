/**
 * Recursive directory listing: the preorder walk it should produce, and the pausable stack machine that produces it.
 */
module ListingSpec {
  import opened FileSystems

  datatype ListType = ListFile | ListDirectory | ListLink | ListError | ListDone

  datatype Record = Record(kind: ListType, path: string)

  datatype Options = Options(recursive: bool, followLinks: bool)

  // ---------- the walk ----------

  /** What one directory entry is reported as; `link` is the link just followed, if any. */
  datatype Kind =
    | Skipped
    | Reported(kind: ListType)
    | Subdirectory(dir: Ino, link: Resolved)

  function DirectoryKind(name: string, dir: Ino, link: Resolved): (k: Kind)
  {
    if IsDot(name) then Skipped else Subdirectory(dir, link)
  }

  /** Classification by stat, for links that may be followed and for entries of unknown type. */
  function Inspect(fs: FileSystem, o: Options, chain: seq<Ino>, e: Dirent): (k: Kind)
    requires e.ino in fs.inodes
    ensures k.Reported? ==> k.kind.ListFile? || k.kind.ListLink? || k.kind.ListError?
  {
    if e.statFails then Reported(ListError)
    else
      match fs.inodes[e.ino]
      case File => Reported(ListFile)
      case Directory(_, _, _) => DirectoryKind(e.name, e.ino, Missing)
      case Symlink(target) =>
        if !o.followLinks || e.ino in chain || target.Missing? then Reported(ListLink)
        else if IsDirectory(fs, target) then DirectoryKind(e.name, target.ino, Found(e.ino))
        else Reported(ListFile)
  }

  function Classify(fs: FileSystem, o: Options, chain: seq<Ino>, e: Dirent): (k: Kind)
    requires e.ino in fs.inodes
    ensures k.Reported? ==> k.kind.ListFile? || k.kind.ListLink? || k.kind.ListError?
  {
    match e.dtype
    case DtDir => DirectoryKind(e.name, e.ino, Missing)
    case DtFile => Reported(ListFile)
    case DtLink => if o.followLinks then Inspect(fs, o, chain, e) else Reported(ListLink)
    case DtUnknown => Inspect(fs, o, chain, e)
  }

  /** Whether readdir knows an entry's type makes no difference to how the entry is listed. */
  lemma TypeHintIsIrrelevant(fs: FileSystem, o: Options, chain: seq<Ino>, e: Dirent)
    requires TypeAgrees(fs, e) && !e.statFails
    ensures Classify(fs, o, chain, e) == Classify(fs, o, chain, e.(dtype := DtUnknown))
  {
  }

  /**
   * A link is followed exactly when that was asked for, it leads to a directory and it is not being followed already.
   */
  lemma FollowedIff(fs: FileSystem, o: Options, chain: seq<Ino>, e: Dirent)
    requires TypeAgrees(fs, e) && !e.statFails && IsLink(fs, e.ino)
    ensures
      var k := Classify(fs, o, chain, e);
      && (k.Subdirectory? <==>
          o.followLinks && FollowToDirectory(fs, Found(e.ino)).Found? && e.ino !in chain && !IsDot(e.name))
      && (k.Subdirectory? ==> k.link == Found(e.ino) && FollowToDirectory(fs, Found(e.ino)) == Found(k.dir))
      && (e.ino in chain ==> k == Reported(ListLink))
  {
  }

  /** The chain of followed links, innermost first, extended by a link. */
  function Extend(chain: seq<Ino>, link: Resolved): (c: seq<Ino>)
  {
    if link.Found? then [link.ino] + chain else chain
  }

  /** No link occurs twice on a chain. */
  ghost predicate ChainOk(fs: FileSystem, chain: seq<Ino>)
  {
    && (forall i :: 0 <= i < |chain| ==> IsLink(fs, chain[i]))
    && (forall i, j :: 0 <= i < j < |chain| ==> chain[i] != chain[j])
  }

  ghost function Unused(fs: FileSystem, chain: seq<Ino>): (n: nat)
  {
    |Links(fs) - set i | i in chain|
  }

  /** Entering a subdirectory uses up a link or goes down in the tree of real directories. */
  lemma DescentDecreases(fs: FileSystem, o: Options, d: Ino, chain: seq<Ino>, i: nat)
    requires WellFormed(fs) && ChainOk(fs, chain) && d in fs.inodes && fs.inodes[d].Directory?
    requires i < |fs.inodes[d].entries|
    requires Classify(fs, o, chain, fs.inodes[d].entries[i]).Subdirectory?
    ensures
      var Subdirectory(dir, link) := Classify(fs, o, chain, fs.inodes[d].entries[i]);
      && dir in fs.inodes && fs.inodes[dir].Directory? && ChainOk(fs, Extend(chain, link))
      && (Unused(fs, Extend(chain, link)) < Unused(fs, chain) ||
          (link.Missing? && fs.rank[dir] < fs.rank[d]))
  {
    assert EntriesOk(fs, d);
    var e := fs.inodes[d].entries[i];
    var Subdirectory(dir, link) := Classify(fs, o, chain, e);
    if link.Found? {
      assert e.ino !in chain && link == Found(e.ino);
      var used, used' := set i | i in chain, set i | i in Extend(chain, link);
      assert used' == used + {e.ino};
      assert Links(fs) - used == (Links(fs) - used') + {e.ino};
    }
  }

  /** The records for the entries of directory `d` from entry `pos` on; `prefix` is its path. */
  ghost function Walk(fs: FileSystem, o: Options, d: Ino, prefix: string, chain: seq<Ino>, pos: nat): (rs: seq<Record>)
    requires WellFormed(fs) && ChainOk(fs, chain)
    requires d in fs.inodes && fs.inodes[d].Directory? && pos <= |fs.inodes[d].entries|
    decreases Unused(fs, chain), fs.rank[d], |fs.inodes[d].entries| - pos, 0
  {
    var es := fs.inodes[d].entries;
    if pos == |es| then
      if fs.inodes[d].readFails then [Record(ListError, prefix)] else []
    else
      assert EntriesOk(fs, d);
      WalkEntry(fs, o, d, prefix, chain, pos) + Walk(fs, o, d, prefix, chain, pos + 1)
  }

  ghost function WalkEntry(fs: FileSystem, o: Options, d: Ino, prefix: string, chain: seq<Ino>,
                           pos: nat): (rs: seq<Record>)
    requires WellFormed(fs) && ChainOk(fs, chain)
    requires d in fs.inodes && fs.inodes[d].Directory? && pos < |fs.inodes[d].entries|
    requires fs.inodes[d].entries[pos].ino in fs.inodes
    decreases Unused(fs, chain), fs.rank[d], |fs.inodes[d].entries| - pos - 1, 1
  {
    var e := fs.inodes[d].entries[pos];
    var path := prefix + e.name;
    match Classify(fs, o, chain, e)
    case Skipped => []
    case Reported(kind) => [Record(kind, path)]
    case Subdirectory(dir, link) =>
      DescentDecreases(fs, o, d, chain, pos);
      [Record(ListDirectory, path)]
      + (if !o.recursive then []
         else if !fs.inodes[dir].openable then [Record(ListError, path)]
         else Walk(fs, o, dir, path + "/", Extend(chain, link), 0))
  }

  /** The whole listing of a root path. */
  ghost function Listing(fs: FileSystem, o: Options, root: string): (rs: seq<Record>)
    requires WellFormed(fs)
  {
    var d := FollowToDirectory(fs, Resolve(fs, root));
    if d.Missing? || !fs.inodes[d.ino].openable then [Record(ListError, root)]
    else Walk(fs, o, d.ino, root, [], 0)
  }

  // ---------- the stack machine ----------

  /**
   * A directory being listed: whether it was opened, its stream, where its path ends, and the links followed so far.
   */
  datatype Frame = Frame(isOpen: bool, done: bool, dir: Ino, pos: nat, pathLength: nat, chain: seq<Ino>)

  /** The stack, top last, and the one path buffer that all frames share. */
  datatype Machine = Machine(stack: seq<Frame>, path: string)

  function NewFrame(): (f: Frame)
  {
    Frame(false, false, 0, 0, 0, [])
  }

  function Start(root: string): (m: Machine)
  {
    Machine([NewFrame()], root)
  }

  function Below(stack: seq<Frame>): (s: seq<Frame>)
    requires stack != []
  {
    stack[..|stack| - 1]
  }

  function Top(stack: seq<Frame>): (f: Frame)
    requires stack != []
  {
    stack[|stack| - 1]
  }

  /** The chain that a frame above `below` starts every entry with. */
  function BaseChain(below: seq<Frame>): (c: seq<Ino>)
  {
    if below == [] then [] else Top(below).chain
  }

  predicate StreamOk(fs: FileSystem, f: Frame)
  {
    f.dir in fs.inodes && fs.inodes[f.dir].Directory? && f.pos <= |fs.inodes[f.dir].entries|
  }

  /** Reads entries of the open top directory until one is to be reported. */
  function Read(fs: FileSystem, o: Options, below: seq<Frame>, f: Frame, path: string): (r: (Machine, ListType))
    requires WellFormed(fs) && StreamOk(fs, f) && f.pathLength <= |path|
    decreases |fs.inodes[f.dir].entries| - f.pos
  {
    var es, chain, prefix := fs.inodes[f.dir].entries, BaseChain(below), path[..f.pathLength];
    if f.pos == |es| then
      (Machine(below + [f.(done := true, chain := chain)], prefix),
       if fs.inodes[f.dir].readFails then ListError else ListDone)
    else
      assert EntriesOk(fs, f.dir);
      var e, f' := es[f.pos], f.(pos := f.pos + 1, chain := chain);
      match Classify(fs, o, chain, e)
      case Skipped => Read(fs, o, below, f', prefix + e.name)
      case Reported(kind) => (Machine(below + [f'], prefix + e.name), kind)
      case Subdirectory(_, link) =>
        (Machine(below + [f'.(chain := Extend(chain, link))], prefix + e.name), ListDirectory)
  }

  predicate Openable(fs: FileSystem, path: string)
  {
    var d := FollowToDirectory(fs, Resolve(fs, path));
    d.Found? && fs.inodes[d.ino].openable
  }

  /** The path of a directory's entries: a separator is added for every directory but the root. */
  function Inside(below: seq<Frame>, path: string): (p: string)
  {
    if below == [] then path else path + "/"
  }

  function OpenFrame(fs: FileSystem, below: seq<Frame>, f: Frame, path: string): (g: Frame)
    requires Openable(fs, path)
  {
    f.(isOpen := true, dir := FollowToDirectory(fs, Resolve(fs, path)).ino,
       pos := 0, pathLength := |Inside(below, path)|)
  }

  function Next(fs: FileSystem, o: Options, m: Machine): (r: (Machine, ListType))
    requires WellFormed(fs) && m.stack != []
    requires Top(m.stack).isOpen ==> StreamOk(fs, Top(m.stack)) && Top(m.stack).pathLength <= |m.path|
  {
    var below, f := Below(m.stack), Top(m.stack);
    if f.done then (m, ListDone)
    else if f.isOpen then Read(fs, o, below, f, m.path)
    else if Openable(fs, m.path) then Read(fs, o, below, OpenFrame(fs, below, f, m.path), Inside(below, m.path))
    else (Machine(below + [f.(done := true)], m.path), ListError)
  }

  function Push(o: Options, m: Machine): (r: Machine)
  {
    if o.recursive then Machine(m.stack + [NewFrame()], m.path) else m
  }

  /** One step: the new state and the records handed to the listener. */
  function ListNext(fs: FileSystem, o: Options, m: Machine): (r: (Machine, seq<Record>))
    requires WellFormed(fs) && m.stack != []
    requires Top(m.stack).isOpen ==> StreamOk(fs, Top(m.stack)) && Top(m.stack).pathLength <= |m.path|
  {
    var (m1, kind) := Next(fs, o, m);
    match kind
    case ListDirectory => (Push(o, m1), [Record(kind, m1.path)])
    case ListDone =>
      var m2 := Machine(Below(m.stack), m1.path);
      (m2, if m2.stack == [] then [Record(ListDone, "")] else [])
    case _ => (m1, [Record(kind, m1.path)])
  }
}
