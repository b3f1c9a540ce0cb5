/** The errors a listing reports: exactly one place for each way in which an entry or a directory cannot be listed. */
module ListingFailures {
  import opened FileSystems
  import opened ListingKinds
  import opened ListingSpec
  import opened ListingWalk

  /** The entry that a directory has under a name leads on into another directory. */
  ghost predicate Descends(fs: FileSystem, o: Options, d: Ino, chain: seq<Ino>, name: string)
    requires WellFormed(fs) && ChainOk(fs, chain) && d in fs.inodes && fs.inodes[d].Directory?
  {
    var es := fs.inodes[d].entries;
    var i := IndexOf(es, name);
    && i < |es| && EntryKind(fs, o, chain, es[i]) == ListDirectory && o.recursive
    && (InsideEntry(fs, o, d, chain, i); fs.inodes[DirectoryOf(fs, es[i])].openable)
  }

  /** The entry at the end of a route cannot be told, or is a directory that cannot be opened. */
  ghost predicate Unlistable(fs: FileSystem, o: Options, d: Ino, chain: seq<Ino>, names: seq<string>)
    requires WellFormed(fs) && ChainOk(fs, chain) && d in fs.inodes && fs.inodes[d].Directory? && names != []
    decreases |names|
  {
    var es := fs.inodes[d].entries;
    var i := IndexOf(es, names[0]);
    if i == |es| then false
    else
      InsideEntry(fs, o, d, chain, i);
      var kind := EntryKind(fs, o, chain, es[i]);
      if |names| == 1 then
        kind == ListError || (kind == ListDirectory && o.recursive && !fs.inodes[DirectoryOf(fs, es[i])].openable)
      else
        && Descends(fs, o, d, chain, names[0])
        && Unlistable(fs, o, DirectoryOf(fs, es[i]), ChainInto(fs, chain, es[i]), names[1..])
  }

  /** Reading the directory at the end of a route breaks off. */
  ghost predicate BreaksOff(fs: FileSystem, o: Options, d: Ino, chain: seq<Ino>, names: seq<string>)
    requires WellFormed(fs) && ChainOk(fs, chain) && d in fs.inodes && fs.inodes[d].Directory?
    decreases |names|
  {
    if names == [] then fs.inodes[d].readFails
    else
      && Descends(fs, o, d, chain, names[0])
      && var es := fs.inodes[d].entries;
         var i := IndexOf(es, names[0]);
         InsideEntry(fs, o, d, chain, i);
         BreaksOff(fs, o, DirectoryOf(fs, es[i]), ChainInto(fs, chain, es[i]), names[1..])
  }

  /** The path of a directory's contents. */
  function Within(prefix: string, names: seq<string>): (path: string)
  {
    if names == [] then prefix else prefix + Join(names) + "/"
  }

  ghost predicate Cause(fs: FileSystem, o: Options, d: Ino, prefix: string, chain: seq<Ino>, path: string,
                        names: seq<string>)
    requires WellFormed(fs) && ChainOk(fs, chain) && d in fs.inodes && fs.inodes[d].Directory?
  {
    || (names != [] && path == prefix + Join(names) && Unlistable(fs, o, d, chain, names))
    || (path == Within(prefix, names) && BreaksOff(fs, o, d, chain, names))
  }

  // ---------- every cause is reported ----------

  lemma {:induction false} EndIsReported(fs: FileSystem, o: Options, d: Ino, prefix: string, chain: seq<Ino>, pos: nat)
    requires WellFormed(fs) && ChainOk(fs, chain)
    requires d in fs.inodes && fs.inodes[d].Directory? && pos <= |fs.inodes[d].entries| && fs.inodes[d].readFails
    ensures Record(ListError, prefix) in Walk(fs, o, d, prefix, chain, pos)
    decreases |fs.inodes[d].entries| - pos
  {
    if pos < |fs.inodes[d].entries| {
      EndIsReported(fs, o, d, prefix, chain, pos + 1);
    }
  }

  /** The records of an entry that leads into a directory. */
  lemma EntryInside(fs: FileSystem, o: Options, d: Ino, prefix: string, chain: seq<Ino>, i: nat)
    requires WellFormed(fs) && ChainOk(fs, chain) && d in fs.inodes && fs.inodes[d].Directory?
    requires i < |fs.inodes[d].entries| && fs.inodes[d].entries[i].ino in fs.inodes
    ensures
      var e := fs.inodes[d].entries[i];
      var kind, path := EntryKind(fs, o, chain, e), prefix + e.name;
      var rs := WalkEntry(fs, o, d, prefix, chain, i);
      && (kind == ListDone ==> rs == [])
      && (kind != ListDone && kind != ListDirectory ==> rs == [Record(kind, path)])
      && (kind == ListDirectory ==>
            && DirectoryOf.requires(fs, e) && DirectoryOf(fs, e) in fs.inodes
            && fs.inodes[DirectoryOf(fs, e)].Directory?
            && ChainOk(fs, ChainInto(fs, chain, e))
            && rs == [Record(ListDirectory, path)]
                     + if !o.recursive then []
                       else if !fs.inodes[DirectoryOf(fs, e)].openable then [Record(ListError, path)]
                       else Walk(fs, o, DirectoryOf(fs, e), path + "/", ChainInto(fs, chain, e), 0))
  {
    hide Walk, WellFormed, ChainOk, Classify, EntryKind, Unused;
    InsideEntry(fs, o, d, chain, i);
    if Classify(fs, o, chain, fs.inodes[d].entries[i]).Subdirectory? {
      DescentDecreases(fs, o, d, chain, i);
    }
  }

  lemma {:induction false} UnlistableIsReported(fs: FileSystem, o: Options, d: Ino, prefix: string, chain: seq<Ino>,
                                                names: seq<string>)
    requires WellFormed(fs) && ChainOk(fs, chain) && d in fs.inodes && fs.inodes[d].Directory? && names != []
    requires Unlistable(fs, o, d, chain, names)
    ensures Record(ListError, prefix + Join(names)) in Walk(fs, o, d, prefix, chain, 0)
    decreases |names|
  {
    hide Walk, WalkEntry, Join, WellFormed, ChainOk, IndexOf, EntryKind, ChainInto;
    var es := fs.inodes[d].entries;
    var i := IndexOf(es, names[0]);
    NameIs(es, names[0]);
    InsideEntry(fs, o, d, chain, i);
    EntryInside(fs, o, d, prefix, chain, i);
    if |names| == 1 {
      JoinOne(names[0]);
      assert names == [names[0]];
    } else {
      UnlistableIsReported(fs, o, DirectoryOf(fs, es[i]), prefix + names[0] + "/", ChainInto(fs, chain, es[i]),
                           names[1..]);
      Deeper(prefix, names);
    }
    WalkHasEntry(fs, o, d, prefix, chain, 0, i, Record(ListError, prefix + Join(names)));
  }

  lemma NameIs(es: seq<Dirent>, name: string)
    ensures IndexOf(es, name) < |es| ==> es[IndexOf(es, name)].name == name
  {
  }

  lemma Deeper(prefix: string, names: seq<string>)
    requires |names| > 1
    ensures prefix + Join(names) == prefix + names[0] + "/" + Join(names[1..])
    ensures Within(prefix, names) == Within(prefix + names[0] + "/", names[1..])
  {
    JoinCons(names[0], names[1..]);
    assert names == [names[0]] + names[1..];
    assert prefix + (names[0] + "/" + Join(names[1..])) == prefix + names[0] + "/" + Join(names[1..]);
  }

  lemma WithinOne(prefix: string, name: string)
    ensures Within(prefix, [name]) == prefix + name + "/"
  {
    JoinOne(name);
  }

  lemma {:induction false} BreakIsReported(fs: FileSystem, o: Options, d: Ino, prefix: string, chain: seq<Ino>,
                                           names: seq<string>)
    requires WellFormed(fs) && ChainOk(fs, chain) && d in fs.inodes && fs.inodes[d].Directory?
    requires BreaksOff(fs, o, d, chain, names)
    ensures Record(ListError, Within(prefix, names)) in Walk(fs, o, d, prefix, chain, 0)
    decreases |names|
  {
    if names == [] {
      EndIsReported(fs, o, d, prefix, chain, 0);
    } else {
      hide Walk, WalkEntry, Join, WellFormed, ChainOk, IndexOf, EntryKind, ChainInto, Within;
      var es := fs.inodes[d].entries;
      var i := IndexOf(es, names[0]);
      NameIs(es, names[0]);
      InsideEntry(fs, o, d, chain, i);
      EntryInside(fs, o, d, prefix, chain, i);
      BreakIsReported(fs, o, DirectoryOf(fs, es[i]), prefix + names[0] + "/", ChainInto(fs, chain, es[i]), names[1..]);
      WithinInside(prefix, names);
      WalkHasEntry(fs, o, d, prefix, chain, 0, i, Record(ListError, Within(prefix, names)));
    }
  }

  lemma WithinInside(prefix: string, names: seq<string>)
    requires names != []
    ensures Within(prefix, names) == Within(prefix + names[0] + "/", names[1..])
  {
    if |names| == 1 {
      WithinOne(prefix, names[0]);
      assert names == [names[0]] && names[1..] == [];
    } else {
      Deeper(prefix, names);
    }
  }

  // ---------- every error has a cause ----------

  lemma {:induction false} ErrorHasCause(fs: FileSystem, o: Options, d: Ino, prefix: string, chain: seq<Ino>, pos: nat,
                                         path: string)
    returns (names: seq<string>)
    requires WellFormed(fs) && ChainOk(fs, chain)
    requires d in fs.inodes && fs.inodes[d].Directory? && pos <= |fs.inodes[d].entries|
    requires Record(ListError, path) in Walk(fs, o, d, prefix, chain, pos)
    ensures Cause(fs, o, d, prefix, chain, path, names)
    decreases Unused(fs, chain), fs.rank[d], |fs.inodes[d].entries| - pos, 0
  {
    hide Unlistable, EntryKind, Classify;
    var es := fs.inodes[d].entries;
    if pos == |es| {
      names := [];
    } else {
      assert EntriesOk(fs, d);
      if Record(ListError, path) in Walk(fs, o, d, prefix, chain, pos + 1) {
        names := ErrorHasCause(fs, o, d, prefix, chain, pos + 1, path);
      } else {
        names := EntryErrorHasCause(fs, o, d, prefix, chain, pos, path);
      }
    }
  }

  lemma {:induction false} EntryErrorHasCause(fs: FileSystem, o: Options, d: Ino, prefix: string, chain: seq<Ino>,
                                              pos: nat, path: string)
    returns (names: seq<string>)
    requires WellFormed(fs) && ChainOk(fs, chain)
    requires d in fs.inodes && fs.inodes[d].Directory? && pos < |fs.inodes[d].entries|
    requires fs.inodes[d].entries[pos].ino in fs.inodes
    requires Record(ListError, path) in WalkEntry(fs, o, d, prefix, chain, pos)
    ensures Cause(fs, o, d, prefix, chain, path, names)
    decreases Unused(fs, chain), fs.rank[d], |fs.inodes[d].entries| - pos - 1, 1
  {
    assert EntriesOk(fs, d);
    var e := fs.inodes[d].entries[pos];
    IndexOfUnique(fs.inodes[d].entries, pos);
    InsideEntry(fs, o, d, chain, pos);
    EntryInside(fs, o, d, prefix, chain, pos);
    if path == prefix + e.name && Unlistable(fs, o, d, chain, [e.name]) {
      JoinOne(e.name);
      names := [e.name];
    } else {
      DescentDecreases(fs, o, d, chain, pos);
      assert d in fs.rank && DirectoryOf(fs, e) in fs.rank;
      assert Descends(fs, o, d, chain, e.name);
      hide *;
      var rest := ErrorHasCause(fs, o, DirectoryOf(fs, e), prefix + e.name + "/", ChainInto(fs, chain, e), 0, path);
      names := [e.name] + rest;
      CauseInside(fs, o, d, prefix, chain, pos, path, rest);
    }
  }

  lemma CauseInside(fs: FileSystem, o: Options, d: Ino, prefix: string, chain: seq<Ino>, i: nat, path: string,
                    rest: seq<string>)
    requires WellFormed(fs) && ChainOk(fs, chain) && d in fs.inodes && fs.inodes[d].Directory?
    requires i < |fs.inodes[d].entries| && IndexOf(fs.inodes[d].entries, fs.inodes[d].entries[i].name) == i
    requires Descends(fs, o, d, chain, fs.inodes[d].entries[i].name)
    requires
      var e := fs.inodes[d].entries[i];
      (InsideEntry(fs, o, d, chain, i);
       Cause(fs, o, DirectoryOf(fs, e), prefix + e.name + "/", ChainInto(fs, chain, e), path, rest))
    ensures Cause(fs, o, d, prefix, chain, path, [fs.inodes[d].entries[i].name] + rest)
  {
    var e := fs.inodes[d].entries[i];
    var names := [e.name] + rest;
    hide WellFormed, ChainOk, EntryKind, IndexOf, Join;
    InsideEntry(fs, o, d, chain, i);
    assert names[1..] == rest && names[0] == e.name;
    WithinInside(prefix, names);
    if rest != [] {
      Deeper(prefix, names);
    }
  }

  /**
   * A listing reports an error exactly for each entry that stat cannot tell, each subdirectory that cannot be opened
   * and each directory whose reading breaks off, under its path.
   */
  lemma ErrorsAreExactlyTheCauses(fs: FileSystem, o: Options, d: Ino, prefix: string, path: string)
    requires WellFormed(fs) && d in fs.inodes && fs.inodes[d].Directory?
    ensures Record(ListError, path) in Walk(fs, o, d, prefix, [], 0) <==>
            exists names :: Cause(fs, o, d, prefix, [], path, names)
  {
    if Record(ListError, path) in Walk(fs, o, d, prefix, [], 0) {
      var names := ErrorHasCause(fs, o, d, prefix, [], 0, path);
    }
    hide Walk, Unlistable, BreaksOff, Join, Within;
    forall names | Cause(fs, o, d, prefix, [], path, names)
      ensures Record(ListError, path) in Walk(fs, o, d, prefix, [], 0)
    {
      if names != [] && path == prefix + Join(names) && Unlistable(fs, o, d, [], names) {
        UnlistableIsReported(fs, o, d, prefix, [], names);
      } else {
        BreakIsReported(fs, o, d, prefix, [], names);
      }
    }
  }
}
