/** A finite file system: real directories form a tree, symbolic links may point anywhere. */
module FileSystems {

  type Ino = nat

  /** The type readdir reports; everything that is not a directory or a link counts as a file. */
  datatype DirentType = DtDir | DtFile | DtLink | DtUnknown

  datatype Dirent = Dirent(name: string, ino: Ino, dtype: DirentType, statFails: bool)

  datatype Resolved = Missing | Found(ino: Ino)

  datatype Inode =
    | File
    | Directory(openable: bool, entries: seq<Dirent>, readFails: bool)
    | Symlink(target: Resolved)

  /** `rank` bounds how deep real directories nest. */
  datatype FileSystem = FileSystem(inodes: map<Ino, Inode>, root: Ino, cwd: Ino, rank: map<Ino, nat>)

  predicate IsDot(name: string)
  {
    name == "." || name == ".."
  }

  predicate IsDirectory(fs: FileSystem, r: Resolved)
  {
    r.Found? && r.ino in fs.inodes && fs.inodes[r.ino].Directory?
  }

  predicate IsLink(fs: FileSystem, ino: Ino)
  {
    ino in fs.inodes && fs.inodes[ino].Symlink?
  }

  function Links(fs: FileSystem): (s: set<Ino>)
    ensures forall i :: i in s <==> IsLink(fs, i)
  {
    set i | i in fs.inodes && fs.inodes[i].Symlink?
  }

  /** What readdir says about an entry agrees with its inode. */
  ghost predicate TypeAgrees(fs: FileSystem, e: Dirent)
  {
    && e.ino in fs.inodes
    && (e.dtype.DtDir? ==> fs.inodes[e.ino].Directory?)
    && (e.dtype.DtFile? ==> fs.inodes[e.ino].File?)
    && (e.dtype.DtLink? ==> fs.inodes[e.ino].Symlink?)
  }

  ghost predicate EntriesOk(fs: FileSystem, ino: Ino)
    requires ino in fs.inodes && fs.inodes[ino].Directory? && ino in fs.rank
  {
    var es := fs.inodes[ino].entries;
    && (forall i :: 0 <= i < |es| ==>
                      && es[i].name != "" && '/' !in es[i].name && '\0' !in es[i].name
                      && TypeAgrees(fs, es[i]))
    && (forall i, j :: 0 <= i < j < |es| ==> es[i].name != es[j].name)
    && (forall i :: 0 <= i < |es| && !IsDot(es[i].name) && fs.inodes[es[i].ino].Directory? ==>
          es[i].ino in fs.rank && fs.rank[es[i].ino] < fs.rank[ino])
  }

  ghost predicate WellFormed(fs: FileSystem)
  {
    && (forall ino :: ino in fs.inodes && fs.inodes[ino].Directory? ==> ino in fs.rank && EntriesOk(fs, ino))
    && (forall ino :: ino in fs.inodes && fs.inodes[ino].Symlink? && fs.inodes[ino].target.Found? ==>
          fs.inodes[ino].target.ino in fs.inodes && !fs.inodes[fs.inodes[ino].target.ino].Symlink?)
    && IsDirectory(fs, Found(fs.root)) && IsDirectory(fs, Found(fs.cwd))
  }

  /** The directory itself, or the directory a link leads to. */
  function FollowToDirectory(fs: FileSystem, r: Resolved): (d: Resolved)
    ensures IsDirectory(fs, r) ==> d == r
    ensures d.Found? ==> IsDirectory(fs, d)
  {
    if IsDirectory(fs, r) then r
    else if r.Found? && IsLink(fs, r.ino) && IsDirectory(fs, fs.inodes[r.ino].target) then fs.inodes[r.ino].target
    else Missing
  }

  function FindEntry(es: seq<Dirent>, name: string): (r: Resolved)
  {
    if es == [] then Missing else if es[0].name == name then Found(es[0].ino) else FindEntry(es[1..], name)
  }

  lemma {:induction false} FindEntryAt(es: seq<Dirent>, i: nat)
    requires i < |es| && forall j, k :: 0 <= j < k < |es| ==> es[j].name != es[k].name
    ensures FindEntry(es, es[i].name) == Found(es[i].ino)
  {
    if i > 0 {
      FindEntryAt(es[1..], i - 1);
    }
  }

  /** The length of the part of a path up to and including its last separator. */
  function BaseLength(path: string): (k: nat)
    ensures k <= |path|
    ensures k > 0 ==> path[k - 1] == '/'
    ensures '/' !in path[k..]
  {
    if path == "" then 0
    else if path[|path| - 1] == '/' then |path|
    else
      var k := BaseLength(path[..|path| - 1]);
      assert path[k..] == path[..|path| - 1][k..] + [path[|path| - 1]];
      k
  }

  /** Path resolution without following a link in the last component. */
  function Resolve(fs: FileSystem, path: string): (r: Resolved)
    decreases |path|
  {
    var n, k := |path|, BaseLength(path);
    if path == "" then Found(fs.cwd)
    else if path == "/" then Found(fs.root)
    else if k == n then FollowToDirectory(fs, Resolve(fs, path[..n - 1]))
    else
      var dir := FollowToDirectory(fs, Resolve(fs, path[..k]));
      if dir.Missing? then Missing else FindEntry(fs.inodes[dir.ino].entries, path[k..])
  }

  ghost predicate EndsWithSeparator(path: string)
  {
    path != "" && path[|path| - 1] == '/'
  }

  lemma {:induction false} BaseLengthOfChild(prefix: string, name: string)
    requires EndsWithSeparator(prefix) && '/' !in name
    ensures BaseLength(prefix + name) == |prefix|
  {
    if name == "" {
      assert prefix + name == prefix;
    } else {
      var n := |name| - 1;
      assert (prefix + name)[..|prefix| + n] == prefix + name[..n];
      assert (prefix + name)[|prefix| + n] == name[n];
      assert name[n] in name;
      assert forall c :: c in name[..n] ==> c in name;
      BaseLengthOfChild(prefix, name[..n]);
    }
  }

  /** The path of a directory with an entry's name appended leads to that entry. */
  lemma ResolveChild(fs: FileSystem, prefix: string, d: Ino, i: nat)
    requires WellFormed(fs) && EndsWithSeparator(prefix)
    requires d in fs.inodes && fs.inodes[d].Directory? && i < |fs.inodes[d].entries| && Resolve(fs, prefix) == Found(d)
    ensures Resolve(fs, prefix + fs.inodes[d].entries[i].name) == Found(fs.inodes[d].entries[i].ino)
  {
    var es := fs.inodes[d].entries;
    var path := prefix + es[i].name;
    assert EntriesOk(fs, d);
    BaseLengthOfChild(prefix, es[i].name);
    assert path[..|prefix|] == prefix && path[|prefix|..] == es[i].name;
    FindEntryAt(es, i);
  }

  /** A separator after a path leads into the directory there. */
  lemma ResolveInside(fs: FileSystem, path: string)
    requires path != ""
    ensures Resolve(fs, path + "/") == FollowToDirectory(fs, Resolve(fs, path))
  {
    var p := path + "/";
    assert p[..|p| - 1] == path;
    assert p[|p| - 1] == '/';
  }
}
