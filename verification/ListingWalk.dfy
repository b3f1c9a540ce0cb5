/** What the preorder walk contains: every entry that a route of names leads to, once, under the joined names. */
module ListingWalk {
  import opened FileSystems
  import opened ListingKinds
  import opened ListingSpec

  ghost predicate HasPrefix(path: string, prefix: string)
  {
    |path| >= |prefix| && path[..|prefix|] == prefix
  }

  /** `path` is that of the entry `name` or of something inside it. */
  ghost predicate Under(prefix: string, name: string, path: string)
  {
    path == prefix + name || HasPrefix(path, prefix + name + "/")
  }

  lemma UnderName(prefix: string, name: string, path: string)
    requires Under(prefix, name, path)
    ensures |path| >= |prefix| + |name| && path[|prefix|..][..|name|] == name
  {
    assert (prefix + name)[|prefix|..] == name;
    if path != prefix + name {
      assert path[..|prefix| + |name|] == (prefix + name + "/")[..|prefix| + |name|] == prefix + name;
      assert path[|prefix|..][..|name|] == path[..|prefix| + |name|][|prefix|..];
    }
  }

  /** Of two names above the same path, the longer one would contain a separator. */
  lemma LongerHasSeparator(prefix: string, name: string, longer: string, path: string)
    requires Under(prefix, name, path) && Under(prefix, longer, path) && |name| < |longer|
    ensures '/' in longer
  {
    UnderName(prefix, longer, path);
    var k := |prefix| + |name|;
    assert path != prefix + name;
    assert path[k] == path[..k + 1][k] == (prefix + name + "/")[k];
    assert longer[|name|] == path[|prefix|..][|name|];
  }

  lemma UnderExclusive(prefix: string, m: string, n: string, path: string)
    requires '/' !in m && '/' !in n && Under(prefix, m, path) && Under(prefix, n, path)
    ensures m == n
  {
    UnderName(prefix, m, path);
    UnderName(prefix, n, path);
    if |m| < |n| {
      LongerHasSeparator(prefix, m, n, path);
    } else if |n| < |m| {
      LongerHasSeparator(prefix, n, m, path);
    }
  }

  // ---------- nothing is listed twice ----------

  lemma {:induction false} WalkHasPrefix(fs: FileSystem, o: Options, d: Ino, prefix: string, chain: seq<Ino>, pos: nat)
    requires WellFormed(fs) && ChainOk(fs, chain)
    requires d in fs.inodes && fs.inodes[d].Directory? && pos <= |fs.inodes[d].entries|
    ensures forall r :: r in Walk(fs, o, d, prefix, chain, pos) ==>
              || r == Record(ListError, prefix)
              || exists i :: pos <= i < |fs.inodes[d].entries| && Under(prefix, fs.inodes[d].entries[i].name, r.path)
    decreases Unused(fs, chain), fs.rank[d], |fs.inodes[d].entries| - pos, 0
  {
    if pos < |fs.inodes[d].entries| {
      assert EntriesOk(fs, d);
      WalkEntryUnder(fs, o, d, prefix, chain, pos);
      WalkHasPrefix(fs, o, d, prefix, chain, pos + 1);
    }
  }

  lemma {:induction false} WalkEntryUnder(fs: FileSystem, o: Options, d: Ino, prefix: string, chain: seq<Ino>, pos: nat)
    requires WellFormed(fs) && ChainOk(fs, chain)
    requires d in fs.inodes && fs.inodes[d].Directory? && pos < |fs.inodes[d].entries|
    requires fs.inodes[d].entries[pos].ino in fs.inodes
    ensures forall r :: r in WalkEntry(fs, o, d, prefix, chain, pos) ==>
              Under(prefix, fs.inodes[d].entries[pos].name, r.path)
    decreases Unused(fs, chain), fs.rank[d], |fs.inodes[d].entries| - pos - 1, 1
  {
    var e := fs.inodes[d].entries[pos];
    var k := Classify(fs, o, chain, e);
    if k.Subdirectory? && o.recursive && fs.inodes[k.dir].openable {
      DescentDecreases(fs, o, d, chain, pos);
      var inner := prefix + e.name + "/";
      WalkHasPrefix(fs, o, k.dir, inner, Extend(chain, k.link), 0);
      forall r | r in Walk(fs, o, k.dir, inner, Extend(chain, k.link), 0)
        ensures HasPrefix(r.path, inner)
      {
        if r != Record(ListError, inner) {
          var i :| 0 <= i < |fs.inodes[k.dir].entries| && Under(inner, fs.inodes[k.dir].entries[i].name, r.path);
          UnderHasPrefix(inner, fs.inodes[k.dir].entries[i].name, r.path);
        }
      }
    }
  }

  lemma UnderHasPrefix(prefix: string, name: string, path: string)
    requires Under(prefix, name, path)
    ensures HasPrefix(path, prefix)
  {
    if path != prefix + name {
      assert path[..|prefix|] == path[..|prefix + name + "/"|][..|prefix|];
    }
  }

  ghost predicate DistinctPaths(rs: seq<Record>)
  {
    forall i, j :: 0 <= i < j < |rs| && rs[i].kind != ListError && rs[j].kind != ListError ==> rs[i].path != rs[j].path
  }

  ghost predicate Apart(a: seq<Record>, b: seq<Record>)
  {
    forall x, y :: x in a && y in b && x.kind != ListError && y.kind != ListError ==> x.path != y.path
  }

  lemma DistinctConcat(a: seq<Record>, b: seq<Record>)
    requires DistinctPaths(a) && DistinctPaths(b) && Apart(a, b)
    ensures DistinctPaths(a + b)
  {
    var c := a + b;
    forall i, j | 0 <= i < j < |c| && c[i].kind != ListError && c[j].kind != ListError
      ensures c[i].path != c[j].path
    {
      if i < |a| <= j {
        assert c[i] in a && c[j] in b;
      }
    }
  }

  lemma EntryApartFromRest(fs: FileSystem, o: Options, d: Ino, prefix: string, chain: seq<Ino>, pos: nat)
    requires WellFormed(fs) && ChainOk(fs, chain)
    requires d in fs.inodes && fs.inodes[d].Directory? && pos < |fs.inodes[d].entries|
    requires fs.inodes[d].entries[pos].ino in fs.inodes
    ensures Apart(WalkEntry(fs, o, d, prefix, chain, pos), Walk(fs, o, d, prefix, chain, pos + 1))
  {
    var es := fs.inodes[d].entries;
    assert EntriesOk(fs, d);
    WalkEntryUnder(fs, o, d, prefix, chain, pos);
    WalkHasPrefix(fs, o, d, prefix, chain, pos + 1);
    hide Walk, WalkEntry, Under;
    var here, later := WalkEntry(fs, o, d, prefix, chain, pos), Walk(fs, o, d, prefix, chain, pos + 1);
    forall x, y | x in here && y in later && y.kind != ListError
      ensures x.path != y.path
    {
      var i :| pos + 1 <= i < |es| && Under(prefix, es[i].name, y.path);
      if x.path == y.path {
        UnderExclusive(prefix, es[pos].name, es[i].name, x.path);
      }
    }
  }

  /** No path is reported twice, whatever links lead where. */
  lemma {:induction false} NothingListedTwice(fs: FileSystem, o: Options, d: Ino, prefix: string, chain: seq<Ino>,
                                              pos: nat)
    requires WellFormed(fs) && ChainOk(fs, chain)
    requires d in fs.inodes && fs.inodes[d].Directory? && pos <= |fs.inodes[d].entries|
    ensures DistinctPaths(Walk(fs, o, d, prefix, chain, pos))
    decreases Unused(fs, chain), fs.rank[d], |fs.inodes[d].entries| - pos, 0
  {
    if pos < |fs.inodes[d].entries| {
      assert EntriesOk(fs, d);
      EntryListedOnce(fs, o, d, prefix, chain, pos);
      NothingListedTwice(fs, o, d, prefix, chain, pos + 1);
      EntryApartFromRest(fs, o, d, prefix, chain, pos);
      DistinctConcat(WalkEntry(fs, o, d, prefix, chain, pos), Walk(fs, o, d, prefix, chain, pos + 1));
    }
  }

  lemma {:induction false} EntryListedOnce(fs: FileSystem, o: Options, d: Ino, prefix: string, chain: seq<Ino>,
                                           pos: nat)
    requires WellFormed(fs) && ChainOk(fs, chain)
    requires d in fs.inodes && fs.inodes[d].Directory? && pos < |fs.inodes[d].entries|
    requires fs.inodes[d].entries[pos].ino in fs.inodes
    ensures DistinctPaths(WalkEntry(fs, o, d, prefix, chain, pos))
    decreases Unused(fs, chain), fs.rank[d], |fs.inodes[d].entries| - pos - 1, 1
  {
    var e := fs.inodes[d].entries[pos];
    var k := Classify(fs, o, chain, e);
    if k.Subdirectory? && o.recursive && fs.inodes[k.dir].openable {
      DescentDecreases(fs, o, d, chain, pos);
      var path := prefix + e.name;
      var inner := Walk(fs, o, k.dir, path + "/", Extend(chain, k.link), 0);
      NothingListedTwice(fs, o, k.dir, path + "/", Extend(chain, k.link), 0);
      WalkLonger(fs, o, k.dir, path + "/", Extend(chain, k.link));
      DistinctConcat([Record(ListDirectory, path)], inner);
    }
  }

  lemma WalkLonger(fs: FileSystem, o: Options, d: Ino, prefix: string, chain: seq<Ino>)
    requires WellFormed(fs) && ChainOk(fs, chain) && d in fs.inodes && fs.inodes[d].Directory?
    ensures forall r :: r in Walk(fs, o, d, prefix, chain, 0) ==> |r.path| >= |prefix|
  {
    WalkHasPrefix(fs, o, d, prefix, chain, 0);
    hide Walk;
    forall r | r in Walk(fs, o, d, prefix, chain, 0)
      ensures |r.path| >= |prefix|
    {
      if r != Record(ListError, prefix) {
        var i :| 0 <= i < |fs.inodes[d].entries| && Under(prefix, fs.inodes[d].entries[i].name, r.path);
        UnderHasPrefix(prefix, fs.inodes[d].entries[i].name, r.path);
      }
    }
  }

  // ---------- exactly the routes are listed ----------

  function Join(names: seq<string>): (path: string)
    requires names != []
  {
    if |names| == 1 then names[0] else names[0] + "/" + Join(names[1..])
  }

  lemma JoinOne(name: string)
    ensures Join([name]) == name
  {
  }

  lemma JoinCons(name: string, rest: seq<string>)
    requires rest != []
    ensures Join([name] + rest) == name + "/" + Join(rest)
  {
    assert ([name] + rest)[1..] == rest;
  }

  function IndexOf(es: seq<Dirent>, name: string): (i: nat)
    ensures i <= |es|
    ensures i < |es| ==> es[i].name == name
    ensures i == |es| ==> forall j :: 0 <= j < |es| ==> es[j].name != name
  {
    if es == [] || es[0].name == name then 0 else 1 + IndexOf(es[1..], name)
  }

  /** An entry that leads to a directory leads to one whose contents can be listed in turn. */
  lemma InsideEntry(fs: FileSystem, o: Options, d: Ino, chain: seq<Ino>, i: nat)
    requires WellFormed(fs) && ChainOk(fs, chain) && d in fs.inodes && fs.inodes[d].Directory?
    requires i < |fs.inodes[d].entries|
    ensures
      var e := fs.inodes[d].entries[i];
      && TypeAgrees(fs, e) && OwnKind(Classify(fs, o, chain, e)) == EntryKind(fs, o, chain, e)
      && (EntryKind(fs, o, chain, e) == ListDirectory ==>
            var k := Classify(fs, o, chain, e);
            && k.Subdirectory? && e.ino in fs.inodes && !fs.inodes[e.ino].File?
            && (fs.inodes[e.ino].Symlink? ==> fs.inodes[e.ino].target.Found?)
            && k.dir == DirectoryOf(fs, e) && k.dir in fs.inodes && fs.inodes[k.dir].Directory?
            && Extend(chain, k.link) == ChainInto(fs, chain, e) && ChainOk(fs, ChainInto(fs, chain, e)))
  {
    assert EntriesOk(fs, d);
    var e := fs.inodes[d].entries[i];
    assert TypeAgrees(fs, e);
    if Classify(fs, o, chain, e).Subdirectory? {
      DescentDecreases(fs, o, d, chain, i);
    }
    hide WellFormed, ChainOk, EntriesOk, Classify;
    KindOfEntry(fs, o, chain, e);
    OneOfThree(fs, o, chain, e);
  }

  /** How an entry itself is reported; `ListDone` when it is not. */
  function OwnKind(k: Kind): (kind: ListType)
  {
    if k.Skipped? then ListDone else if k.Reported? then k.kind else ListDirectory
  }

  /** What the entry at the end of a route of names is; ListDone when there is no such route. */
  ghost function Route(fs: FileSystem, o: Options, d: Ino, chain: seq<Ino>, names: seq<string>): (kind: ListType)
    requires WellFormed(fs) && ChainOk(fs, chain) && d in fs.inodes && fs.inodes[d].Directory? && names != []
    decreases |names|
  {
    var es := fs.inodes[d].entries;
    var i := IndexOf(es, names[0]);
    if i == |es| then ListDone
    else if |names| == 1 then EntryKind(fs, o, chain, es[i])
    else if EntryKind(fs, o, chain, es[i]) != ListDirectory || !o.recursive then ListDone
    else
      InsideEntry(fs, o, d, chain, i);
      var dir := DirectoryOf(fs, es[i]);
      if fs.inodes[dir].openable then Route(fs, o, dir, ChainInto(fs, chain, es[i]), names[1..]) else ListDone
  }

  lemma {:induction false} WalkHasEntry(fs: FileSystem, o: Options, d: Ino, prefix: string, chain: seq<Ino>, pos: nat,
                                        i: nat, r: Record)
    requires WellFormed(fs) && ChainOk(fs, chain)
    requires d in fs.inodes && fs.inodes[d].Directory? && pos <= i < |fs.inodes[d].entries|
    requires fs.inodes[d].entries[i].ino in fs.inodes
    requires r in WalkEntry(fs, o, d, prefix, chain, i)
    ensures r in Walk(fs, o, d, prefix, chain, pos)
    decreases i - pos
  {
    assert EntriesOk(fs, d);
    if pos < i {
      WalkHasEntry(fs, o, d, prefix, chain, pos + 1, i, r);
    }
  }

  lemma IndexOfUnique(es: seq<Dirent>, i: nat)
    requires i < |es| && forall j, k :: 0 <= j < k < |es| ==> es[j].name != es[k].name
    ensures IndexOf(es, es[i].name) == i
  {
  }

  lemma RouteOfOne(fs: FileSystem, o: Options, d: Ino, chain: seq<Ino>, i: nat)
    requires WellFormed(fs) && ChainOk(fs, chain) && d in fs.inodes && fs.inodes[d].Directory?
    requires i < |fs.inodes[d].entries| && fs.inodes[d].entries[i].ino in fs.inodes
    ensures
      var k := Classify(fs, o, chain, fs.inodes[d].entries[i]);
      Route(fs, o, d, chain, [fs.inodes[d].entries[i].name])
      == OwnKind(k)
  {
    assert EntriesOk(fs, d);
    IndexOfUnique(fs.inodes[d].entries, i);
    hide WellFormed, EntriesOk, ChainOk, Classify, IndexOf, EntryKind;
    InsideEntry(fs, o, d, chain, i);
  }

  lemma RouteOfMore(fs: FileSystem, o: Options, d: Ino, chain: seq<Ino>, i: nat, rest: seq<string>)
    requires WellFormed(fs) && ChainOk(fs, chain) && d in fs.inodes && fs.inodes[d].Directory? && rest != []
    requires i < |fs.inodes[d].entries| && fs.inodes[d].entries[i].ino in fs.inodes
    requires var k := Classify(fs, o, chain, fs.inodes[d].entries[i]);
             && k.Subdirectory? && o.recursive
             && k.dir in fs.inodes && fs.inodes[k.dir].Directory? && fs.inodes[k.dir].openable
    ensures
      var k := Classify(fs, o, chain, fs.inodes[d].entries[i]);
      && ChainOk(fs, Extend(chain, k.link))
      && Route(fs, o, d, chain, [fs.inodes[d].entries[i].name] + rest) ==
         Route(fs, o, k.dir, Extend(chain, k.link), rest)
  {
    assert EntriesOk(fs, d);
    IndexOfUnique(fs.inodes[d].entries, i);
    var names := [fs.inodes[d].entries[i].name] + rest;
    assert names[1..] == rest && |names| > 1;
    hide WellFormed, EntriesOk, ChainOk, Classify, IndexOf, EntryKind;
    InsideEntry(fs, o, d, chain, i);
  }

  /** Whatever a route leads to is listed under the joined names. */
  lemma {:induction false} RoutesAreListed(fs: FileSystem, o: Options, d: Ino, prefix: string, chain: seq<Ino>,
                                           names: seq<string>)
    requires WellFormed(fs) && ChainOk(fs, chain) && d in fs.inodes && fs.inodes[d].Directory? && names != []
    requires Route(fs, o, d, chain, names) != ListDone
    ensures Record(Route(fs, o, d, chain, names), prefix + Join(names)) in Walk(fs, o, d, prefix, chain, 0)
    decreases |names|
  {
    hide Walk, Route, Join, WellFormed, ChainOk, Classify, IndexOf;
    RouteFirst(fs, o, d, chain, names);
    var es := fs.inodes[d].entries;
    var i := IndexOf(es, names[0]);
    var r := Record(Route(fs, o, d, chain, names), prefix + Join(names));
    if |names| == 1 {
      assert names == [es[i].name];
      OneIsListed(fs, o, d, prefix, chain, i);
    } else {
      var Subdirectory(dir, link) := Classify(fs, o, chain, es[i]);
      RoutesAreListed(fs, o, dir, prefix + names[0] + "/", Extend(chain, link), names[1..]);
      JoinCons(names[0], names[1..]);
      assert names == [names[0]] + names[1..];
      assert prefix + (names[0] + "/" + Join(names[1..])) == prefix + names[0] + "/" + Join(names[1..]);
    }
    WalkHasEntry(fs, o, d, prefix, chain, 0, i, r);
  }

  /** The first name of a route leads to an entry, and the rest is a route from there. */
  lemma RouteFirst(fs: FileSystem, o: Options, d: Ino, chain: seq<Ino>, names: seq<string>)
    requires WellFormed(fs) && ChainOk(fs, chain) && d in fs.inodes && fs.inodes[d].Directory? && names != []
    requires Route(fs, o, d, chain, names) != ListDone
    ensures
      var es := fs.inodes[d].entries;
      var i := IndexOf(es, names[0]);
      && i < |es| && es[i].name == names[0] && es[i].ino in fs.inodes
      && (|names| > 1 ==>
            var k := Classify(fs, o, chain, es[i]);
            && k.Subdirectory? && o.recursive && k.dir in fs.inodes && fs.inodes[k.dir].Directory?
            && fs.inodes[k.dir].openable
            && ChainOk(fs, Extend(chain, k.link))
            && Route(fs, o, d, chain, names) == Route(fs, o, k.dir, Extend(chain, k.link), names[1..]))
  {
    hide WellFormed, EntriesOk, ChainOk, Classify, EntryKind;
    var es := fs.inodes[d].entries;
    var i := IndexOf(es, names[0]);
    InsideEntry(fs, o, d, chain, i);
  }

  lemma OneIsListed(fs: FileSystem, o: Options, d: Ino, prefix: string, chain: seq<Ino>, i: nat)
    requires WellFormed(fs) && ChainOk(fs, chain) && d in fs.inodes && fs.inodes[d].Directory?
    requires i < |fs.inodes[d].entries| && fs.inodes[d].entries[i].ino in fs.inodes
    requires Route(fs, o, d, chain, [fs.inodes[d].entries[i].name]) != ListDone
    ensures
      var names := [fs.inodes[d].entries[i].name];
      Record(Route(fs, o, d, chain, names), prefix + Join(names)) in WalkEntry(fs, o, d, prefix, chain, i)
  {
    hide Walk, Route, Join, WellFormed, ChainOk, Classify;
    RouteOfOne(fs, o, d, chain, i);
    JoinOne(fs.inodes[d].entries[i].name);
  }

  /** Whatever is listed, errors apart, has a route. */
  lemma {:induction false} ListedHaveRoutes(fs: FileSystem, o: Options, d: Ino, prefix: string, chain: seq<Ino>,
                                            pos: nat, r: Record)
    returns (names: seq<string>)
    requires WellFormed(fs) && ChainOk(fs, chain)
    requires d in fs.inodes && fs.inodes[d].Directory? && pos <= |fs.inodes[d].entries|
    requires r in Walk(fs, o, d, prefix, chain, pos) && r.kind != ListError
    ensures names != [] && r.path == prefix + Join(names) && Route(fs, o, d, chain, names) == r.kind
    decreases Unused(fs, chain), fs.rank[d], |fs.inodes[d].entries| - pos, 0
  {
    hide Route, Join;
    assert EntriesOk(fs, d);
    if r in Walk(fs, o, d, prefix, chain, pos + 1) {
      names := ListedHaveRoutes(fs, o, d, prefix, chain, pos + 1, r);
    } else {
      names := EntryHasRoute(fs, o, d, prefix, chain, pos, r);
    }
  }

  lemma {:induction false} EntryHasRoute(fs: FileSystem, o: Options, d: Ino, prefix: string, chain: seq<Ino>, pos: nat,
                                         r: Record)
    returns (names: seq<string>)
    requires WellFormed(fs) && ChainOk(fs, chain)
    requires d in fs.inodes && fs.inodes[d].Directory? && pos < |fs.inodes[d].entries|
    requires fs.inodes[d].entries[pos].ino in fs.inodes
    requires r in WalkEntry(fs, o, d, prefix, chain, pos) && r.kind != ListError
    ensures names != [] && r.path == prefix + Join(names) && Route(fs, o, d, chain, names) == r.kind
    decreases Unused(fs, chain), fs.rank[d], |fs.inodes[d].entries| - pos - 1, 1
  {
    var e := fs.inodes[d].entries[pos];
    var k := Classify(fs, o, chain, e);
    EntryCases(fs, o, d, prefix, chain, pos, r);
    if r != Record(OwnKind(k), prefix + e.name) {
      DescentDecreases(fs, o, d, chain, pos);
      assert d in fs.rank && k.dir in fs.rank;
      hide *;
      var rest := ListedHaveRoutes(fs, o, k.dir, prefix + e.name + "/", Extend(chain, k.link), 0, r);
      names := Prepend(fs, o, d, prefix, chain, pos, rest);
    } else {
      hide *;
      RouteOfOne(fs, o, d, chain, pos);
      JoinOne(e.name);
      names := [e.name];
    }
  }

  /** A record of an entry is the entry's own or one from inside it. */
  lemma EntryCases(fs: FileSystem, o: Options, d: Ino, prefix: string, chain: seq<Ino>, pos: nat, r: Record)
    requires WellFormed(fs) && ChainOk(fs, chain)
    requires d in fs.inodes && fs.inodes[d].Directory? && pos < |fs.inodes[d].entries|
    requires fs.inodes[d].entries[pos].ino in fs.inodes
    requires r in WalkEntry(fs, o, d, prefix, chain, pos) && r.kind != ListError
    ensures
      var e := fs.inodes[d].entries[pos];
      var k := Classify(fs, o, chain, e);
      (&& k.Subdirectory? && o.recursive && k.dir in fs.inodes && fs.inodes[k.dir].Directory?
       && fs.inodes[k.dir].openable && ChainOk(fs, Extend(chain, k.link))
       && r in Walk(fs, o, k.dir, prefix + e.name + "/", Extend(chain, k.link), 0)) ||
      (r == Record(OwnKind(k), prefix + e.name) && !k.Skipped?)
  {
    hide Walk, WellFormed, ChainOk, Classify, Unused;
    if Classify(fs, o, chain, fs.inodes[d].entries[pos]).Subdirectory? {
      DescentDecreases(fs, o, d, chain, pos);
    }
  }

  /** A route inside a subdirectory becomes a route with the subdirectory's name in front. */
  lemma Prepend(fs: FileSystem, o: Options, d: Ino, prefix: string, chain: seq<Ino>, pos: nat, rest: seq<string>)
    returns (names: seq<string>)
    requires WellFormed(fs) && ChainOk(fs, chain)
    requires d in fs.inodes && fs.inodes[d].Directory? && pos < |fs.inodes[d].entries|
    requires fs.inodes[d].entries[pos].ino in fs.inodes
    requires rest != []
    requires var k := Classify(fs, o, chain, fs.inodes[d].entries[pos]);
             && k.Subdirectory? && o.recursive
             && k.dir in fs.inodes && fs.inodes[k.dir].Directory? && fs.inodes[k.dir].openable
    ensures
      var e := fs.inodes[d].entries[pos];
      var k := Classify(fs, o, chain, e);
      && k.dir in fs.inodes && fs.inodes[k.dir].Directory? && ChainOk(fs, Extend(chain, k.link))
      && names != [] && prefix + Join(names) == prefix + e.name + "/" + Join(rest)
      && Route(fs, o, d, chain, names) == Route(fs, o, k.dir, Extend(chain, k.link), rest)
  {
    var e := fs.inodes[d].entries[pos];
    DescentDecreases(fs, o, d, chain, pos);
    hide *;
    names := [e.name] + rest;
    JoinCons(e.name, rest);
    assert prefix + (e.name + "/" + Join(rest)) == prefix + e.name + "/" + Join(rest);
    RouteOfMore(fs, o, d, chain, pos, rest);
  }

  /** The walk lists exactly the entries that routes of names lead to, under the joined names, each once. */
  lemma WalkIsExactlyTheRoutes(fs: FileSystem, o: Options, d: Ino, prefix: string, r: Record)
    requires WellFormed(fs) && d in fs.inodes && fs.inodes[d].Directory? && r.kind != ListError && r.kind != ListDone
    ensures r in Walk(fs, o, d, prefix, [], 0) <==>
            exists names :: names != [] && r.path == prefix + Join(names) && Route(fs, o, d, [], names) == r.kind
    ensures DistinctPaths(Walk(fs, o, d, prefix, [], 0))
  {
    if r in Walk(fs, o, d, prefix, [], 0) {
      var names := ListedHaveRoutes(fs, o, d, prefix, [], 0, r);
    }
    forall names | names != [] && r.path == prefix + Join(names) && Route(fs, o, d, [], names) == r.kind
      ensures r in Walk(fs, o, d, prefix, [], 0)
    {
      RoutesAreListed(fs, o, d, prefix, [], names);
    }
    NothingListedTwice(fs, o, d, prefix, [], 0);
  }
}
