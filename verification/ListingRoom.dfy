/** Listings whose paths stay below the limit: what the stack machine needs of its next steps, kept over every step. */
module ListingRoom {
  import opened FileSystems
  import opened ListingSpec
  import opened ListingProofs
  import opened PathBuffers

  /** Every record to come has a path below the limit, with room for the dot entries of directories. */
  ghost predicate Fit(rs: seq<Record>)
  {
    forall r :: r in rs ==> |r.path| + (if r.kind == ListDirectory then 3 else 0) < PATH_MAX
  }

  /** The machine with the top frame ready for its next entry: path cut back, link of the previous entry forgotten. */
  function Rewound(m: Machine): (r: Machine)
    requires m.stack != [] && Top(m.stack).pathLength <= |m.path|
  {
    var below, f := Below(m.stack), Top(m.stack);
    Machine(below + [f.(chain := BaseChain(below))], m.path[..f.pathLength])
  }

  /** The machine after taking an entry. */
  function Took(m: Machine, name: string, link: Resolved): (r: Machine)
    requires m.stack != []
  {
    var f := Top(m.stack);
    Machine(Below(m.stack) + [f.(pos := f.pos + 1, chain := Extend(f.chain, link))], m.path + name)
  }

  lemma BelowAndTop(below: seq<Frame>, f: Frame)
    ensures Below(below + [f]) == below && Top(below + [f]) == f
  {
  }

  function LinkOf(k: Kind): (r: Resolved)
  {
    if k.Subdirectory? then k.link else Missing
  }

  /** The top directory is open and unfinished, its path leaves room for dot entries, and what it will report fits. */
  ghost predicate Readable(fs: FileSystem, o: Options, m: Machine)
    requires WellFormed(fs)
  {
    && m.stack != [] && ChainOk(fs, BaseChain(Below(m.stack)))
    && var f := Top(m.stack);
       && f.isOpen && !f.done && StreamOk(fs, f) && f.pathLength <= |m.path| && f.pathLength + 2 < PATH_MAX
       && Fit(Walk(fs, o, f.dir, m.path[..f.pathLength], BaseChain(Below(m.stack)), f.pos))
  }

  /** The entry a readable machine takes next, and what it is. */
  function NextEntry(fs: FileSystem, m: Machine): (e: Dirent)
    requires m.stack != [] && StreamOk(fs, Top(m.stack)) && Top(m.stack).pos < |fs.inodes[Top(m.stack).dir].entries|
  {
    fs.inodes[Top(m.stack).dir].entries[Top(m.stack).pos]
  }

  lemma ReadableEntry(fs: FileSystem, o: Options, m: Machine)
    requires WellFormed(fs) && Readable(fs, o, m) && Top(m.stack).pos < |fs.inodes[Top(m.stack).dir].entries|
    ensures var e := NextEntry(fs, m);
            e.ino in fs.inodes && NUL !in e.name && Top(m.stack).pathLength + |e.name| < PATH_MAX
    ensures var e := NextEntry(fs, m);
            Classify(fs, o, BaseChain(Below(m.stack)), e).Subdirectory? ==>
              Top(m.stack).pathLength + |e.name| + 3 < PATH_MAX
  {
    var f, e, chain := Top(m.stack), NextEntry(fs, m), BaseChain(Below(m.stack));
    var prefix := m.path[..f.pathLength];
    assert EntriesOk(fs, f.dir);
    hide WellFormed, ChainOk, BaseChain, Below, Top;
    FitUnfold(fs, o, f.dir, prefix, chain, f.pos);
    EntryFits(fs, o, f.dir, prefix, chain, f.pos);
  }

  lemma FitUnfold(fs: FileSystem, o: Options, d: Ino, prefix: string, chain: seq<Ino>, pos: nat)
    requires WellFormed(fs) && ChainOk(fs, chain)
    requires d in fs.inodes && fs.inodes[d].Directory? && pos < |fs.inodes[d].entries|
    requires fs.inodes[d].entries[pos].ino in fs.inodes
    requires Fit(Walk(fs, o, d, prefix, chain, pos))
    ensures Fit(WalkEntry(fs, o, d, prefix, chain, pos)) && Fit(Walk(fs, o, d, prefix, chain, pos + 1))
  {
    hide WellFormed, ChainOk, WalkEntry;
    var rs, more := WalkEntry(fs, o, d, prefix, chain, pos), Walk(fs, o, d, prefix, chain, pos + 1);
    assert Walk(fs, o, d, prefix, chain, pos) == rs + more;
    assert forall r :: r in rs || r in more ==> r in rs + more;
  }

  lemma EntryFits(fs: FileSystem, o: Options, d: Ino, prefix: string, chain: seq<Ino>, pos: nat)
    requires WellFormed(fs) && ChainOk(fs, chain)
    requires d in fs.inodes && fs.inodes[d].Directory? && pos < |fs.inodes[d].entries|
    requires fs.inodes[d].entries[pos].ino in fs.inodes
    requires Fit(WalkEntry(fs, o, d, prefix, chain, pos)) && |prefix| + 2 < PATH_MAX
    ensures var e := fs.inodes[d].entries[pos]; |prefix| + |e.name| < PATH_MAX
    ensures var e := fs.inodes[d].entries[pos];
            Classify(fs, o, chain, e).Subdirectory? ==> |prefix| + |e.name| + 3 < PATH_MAX
  {
    hide WellFormed, ChainOk, Walk;
    var e := fs.inodes[d].entries[pos];
    var k := Classify(fs, o, chain, e);
    if !k.Skipped? {
      var r := WalkEntry(fs, o, d, prefix, chain, pos)[0];
      assert r in WalkEntry(fs, o, d, prefix, chain, pos);
    }
  }

  lemma RewoundTop(m: Machine)
    requires m.stack != [] && Top(m.stack).pathLength <= |m.path|
    ensures
      var r := Rewound(m);
      && r.stack != [] && Below(r.stack) == Below(m.stack)
      && Top(r.stack) == Top(m.stack).(chain := BaseChain(Below(m.stack)))
      && |r.path| == Top(m.stack).pathLength
  {
    hide BaseChain;
  }

  /** Reading at the end of the directory. */
  lemma ReadEnds(fs: FileSystem, o: Options, m: Machine)
    requires WellFormed(fs) && Readable(fs, o, m) && Top(m.stack).pos == |fs.inodes[Top(m.stack).dir].entries|
    ensures
      var r := Rewound(m);
      ListingSpec.Read(fs, o, Below(m.stack), Top(m.stack), m.path)
      == (Machine(Below(m.stack) + [Top(r.stack).(done := true)], r.path),
          if fs.inodes[Top(m.stack).dir].readFails then ListError else ListDone)
  {
    hide BaseChain, WellFormed, ChainOk, Walk, Classify, EntriesOk;
    RewoundTop(m);
  }

  /** Reading on after taking an entry. */
  lemma ReadTakes(fs: FileSystem, o: Options, m: Machine)
    requires WellFormed(fs) && Readable(fs, o, m) && Top(m.stack).pos < |fs.inodes[Top(m.stack).dir].entries|
    ensures NextEntry(fs, m).ino in fs.inodes
    ensures
      var e := NextEntry(fs, m);
      var k := Classify(fs, o, BaseChain(Below(m.stack)), e);
      var m' := Took(Rewound(m), e.name, LinkOf(k));
      var result := ListingSpec.Read(fs, o, Below(m.stack), Top(m.stack), m.path);
      match k
      case Skipped =>
        && Readable(fs, o, m') && Top(m'.stack).dir == Top(m.stack).dir && Top(m'.stack).pos == Top(m.stack).pos + 1
        && result == ListingSpec.Read(fs, o, Below(m'.stack), Top(m'.stack), m'.path)
      case Reported(kind) => result == (m', kind)
      case Subdirectory(_, _) => result == (m', ListDirectory)
  {
    hide BaseChain, WellFormed, ChainOk, Walk, Classify, Fit, ListingSpec.Read, Below, Top, Extend, StreamOk;
    var f, e := Top(m.stack), NextEntry(fs, m);
    TookReadable(fs, o, m);
    ReadUnfold(fs, o, Below(m.stack), f, m.path);
    RewoundTop(m);
    var link := LinkOf(Classify(fs, o, BaseChain(Below(m.stack)), e));
    BelowAndTop(Below(m.stack), f.(pos := f.pos + 1, chain := Extend(BaseChain(Below(m.stack)), link)));
    NoLink(BaseChain(Below(m.stack)));
  }

  lemma NoLink(chain: seq<Ino>)
    ensures Extend(chain, Missing) == chain
  {
  }

  lemma ReadUnfold(fs: FileSystem, o: Options, below: seq<Frame>, f: Frame, path: string)
    requires WellFormed(fs) && StreamOk(fs, f) && f.pathLength <= |path| && f.pos < |fs.inodes[f.dir].entries|
    ensures fs.inodes[f.dir].entries[f.pos].ino in fs.inodes
    ensures
      var e, f' := fs.inodes[f.dir].entries[f.pos], f.(pos := f.pos + 1, chain := BaseChain(below));
      var path' := path[..f.pathLength] + e.name;
      ListingSpec.Read(fs, o, below, f, path)
      == match Classify(fs, o, BaseChain(below), e)
         case Skipped => ListingSpec.Read(fs, o, below, f', path')
         case Reported(kind) => (Machine(below + [f'], path'), kind)
         case Subdirectory(_, link) =>
           (Machine(below + [f'.(chain := Extend(BaseChain(below), link))], path'), ListDirectory)
  {
    assert EntriesOk(fs, f.dir);
    hide BaseChain, WellFormed, Classify, EntriesOk, Extend;
  }

  lemma TookReadable(fs: FileSystem, o: Options, m: Machine)
    requires WellFormed(fs) && Readable(fs, o, m) && Top(m.stack).pos < |fs.inodes[Top(m.stack).dir].entries|
    ensures
      var m' := Took(Rewound(m), NextEntry(fs, m).name, Missing);
      Readable(fs, o, m') && Top(m'.stack).dir == Top(m.stack).dir && Top(m'.stack).pos == Top(m.stack).pos + 1
  {
    var f, e := Top(m.stack), NextEntry(fs, m);
    assert EntriesOk(fs, f.dir);
    hide BaseChain, WellFormed, ChainOk, Walk, Fit, EntriesOk;
    RewoundTop(m);
    var below, chain, prefix := Below(m.stack), BaseChain(Below(m.stack)), m.path[..f.pathLength];
    FitUnfold(fs, o, f.dir, prefix, chain, f.pos);
    BelowAndTop(below, f.(pos := f.pos + 1, chain := chain));
    assert (prefix + e.name)[..f.pathLength] == prefix;
  }

  /**
   * The frames a machine has open leave room for dot entries, and a directory still to open leaves room for its
   * separator too.
   */
  ghost predicate FramesFit(m: Machine)
  {
    && (forall i :: 0 <= i < |m.stack| && m.stack[i].isOpen ==> m.stack[i].pathLength + 2 < PATH_MAX)
    && (m.stack != [] && !Top(m.stack).isOpen && !Top(m.stack).done ==> |Inside(Below(m.stack), m.path)| + 2 < PATH_MAX)
  }

  /** Every path still to come, with its separators and dot entries, is below the limit. */
  ghost predicate Roomy(fs: FileSystem, o: Options, m: Machine)
    requires WellFormed(fs) && StackOk(fs, m.stack, m.path)
  {
    Fit(Rest(fs, o, m.stack, m.path)) && FramesFit(m)
  }

  lemma TopRestFits(fs: FileSystem, o: Options, m: Machine)
    requires WellFormed(fs) && m.stack != [] && StackOk(fs, m.stack, m.path) && Fit(Rest(fs, o, m.stack, m.path))
    ensures ChainOk(fs, BaseChain(Below(m.stack))) && FrameOk(fs, Top(m.stack), m.path)
    ensures Fit(FrameRest(fs, o, Below(m.stack), Top(m.stack), m.path))
  {
    var below, f := Below(m.stack), Top(m.stack);
    assert m.stack == below + [f];
    hide Resolve, WellFormed, Walk, ChainOk, FrameRest, FrameOk, Rest;
    RestUnfold(fs, o, below, f, m.path);
    var rs, more := FrameRest(fs, o, below, f, m.path), Rest(fs, o, below, m.path);
    assert forall r :: r in rs ==> r in rs + more;
  }

  /** The top directory can be read on, once it is open. */
  lemma RoomyReadable(fs: FileSystem, o: Options, m: Machine)
    requires WellFormed(fs) && m.stack != [] && StackOk(fs, m.stack, m.path) && Roomy(fs, o, m) && !Top(m.stack).done
    ensures Top(m.stack).isOpen ==> Readable(fs, o, m)
    ensures !Top(m.stack).isOpen ==>
              var below, path := Below(m.stack), Inside(Below(m.stack), m.path);
              && |path| < PATH_MAX
              && (Openable(fs, m.path) ==>
                    var reading := OpenFrame(fs, below, Top(m.stack), m.path);
                    Readable(fs, o, Machine(below + [reading], path)))
  {
    TopRestFits(fs, o, m);
    hide Resolve, WellFormed, Walk, ChainOk, Rest, BaseChain;
    if !Top(m.stack).isOpen && Openable(fs, m.path) {
      var below, path := Below(m.stack), Inside(Below(m.stack), m.path);
      BelowAndTop(below, OpenFrame(fs, below, Top(m.stack), m.path));
      assert path[..|path|] == path;
    }
  }

  /** Reading stays within the top frame and never moves where its path ends. */
  lemma {:induction false} ReadFrame(fs: FileSystem, o: Options, below: seq<Frame>, f: Frame, path: string)
    requires WellFormed(fs) && StreamOk(fs, f) && f.pathLength <= |path|
    ensures
      var m := ListingSpec.Read(fs, o, below, f, path).0;
      && m.stack != [] && Below(m.stack) == below
      && Top(m.stack).isOpen == f.isOpen && Top(m.stack).pathLength == f.pathLength
    decreases |fs.inodes[f.dir].entries| - f.pos
  {
    var es := fs.inodes[f.dir].entries;
    if f.pos < |es| {
      ReadUnfold(fs, o, below, f, path);
      var e, f' := es[f.pos], f.(pos := f.pos + 1, chain := BaseChain(below));
      hide WellFormed, Classify, BaseChain, ListingSpec.Read;
      if Classify(fs, o, BaseChain(below), e).Skipped? {
        ReadFrame(fs, o, below, f', path[..f.pathLength] + e.name);
      }
    }
  }

  lemma FramesFitTop(m: Machine, m1: Machine)
    requires m.stack != [] && m1.stack != [] && FramesFit(m) && Below(m1.stack) == Below(m.stack)
    requires if Top(m1.stack).isOpen then Top(m1.stack).pathLength + 2 < PATH_MAX else Top(m1.stack).done
    ensures FramesFit(m1)
  {
    assert forall i :: 0 <= i < |m.stack| - 1 ==> Below(m.stack)[i] == m.stack[i];
    assert forall i :: 0 <= i < |m1.stack| - 1 ==> Below(m1.stack)[i] == m1.stack[i];
  }

  /** One step within the top frame. */
  lemma FramesFitNext(fs: FileSystem, o: Options, m: Machine)
    requires WellFormed(fs) && m.stack != [] && FramesFit(m)
    requires Top(m.stack).isOpen ==> StreamOk(fs, Top(m.stack)) && Top(m.stack).pathLength <= |m.path|
    ensures var m1 := ListingSpec.Next(fs, o, m).0; m1.stack != [] && FramesFit(m1) && Below(m1.stack) == Below(m.stack)
  {
    hide WellFormed, ListingSpec.Read, Resolve, BaseChain;
    var below, f := Below(m.stack), Top(m.stack);
    var m1 := ListingSpec.Next(fs, o, m).0;
    if f.done {
    } else if f.isOpen {
      ReadFrame(fs, o, below, f, m.path);
      FramesFitTop(m, m1);
    } else if Openable(fs, m.path) {
      ReadFrame(fs, o, below, OpenFrame(fs, below, f, m.path), Inside(below, m.path));
      FramesFitTop(m, m1);
    } else {
      BelowAndTop(below, f.(done := true));
      FramesFitTop(m, m1);
    }
  }

  lemma FramesFitPush(o: Options, m: Machine)
    requires m.stack != [] && FramesFit(m) && Top(m.stack).isOpen && |m.path| + 3 < PATH_MAX
    ensures FramesFit(Push(o, m))
  {
    BelowAndTop(m.stack, NewFrame());
  }

  lemma FramesFitPop(fs: FileSystem, m: Machine, path: string)
    requires m.stack != [] && FramesFit(m) && StackOk(fs, m.stack, m.path)
    ensures FramesFit(Machine(Below(m.stack), path))
  {
    hide FrameOk;
    var below := Below(m.stack);
    assert forall i :: 0 <= i < |below| ==> below[i] == m.stack[i];
  }

  lemma FitSuffix(rest: seq<Record>, rs: seq<Record>, pending: seq<Record>)
    requires Fit(rest) && rest + [DONE] == rs + pending
    ensures Fit(pending)
  {
    forall r | r in pending
      ensures r in rest || r == DONE
    {
      assert r in rs + pending;
    }
  }

  lemma PendingIs(fs: FileSystem, o: Options, m: Machine)
    requires WellFormed(fs) && m.stack != [] && StackOk(fs, m.stack, m.path)
    ensures Pending(fs, o, m) == Rest(fs, o, m.stack, m.path) + [DONE]
  {
  }

  lemma FitRest(fs: FileSystem, o: Options, m: Machine)
    requires WellFormed(fs) && StackOk(fs, m.stack, m.path) && Fit(Pending(fs, o, m))
    ensures Fit(Rest(fs, o, m.stack, m.path))
  {
    hide WellFormed, FrameOk, Rest;
    RestOfNothing(fs, o, m.path);
    if m.stack != [] {
      forall r | r in Rest(fs, o, m.stack, m.path)
        ensures r in Pending(fs, o, m)
      {
      }
    }
  }

  ghost predicate StepReady(fs: FileSystem, m: Machine)
  {
    && WellFormed(fs) && m.stack != [] && StackOk(fs, m.stack, m.path)
    && (Top(m.stack).isOpen ==> StreamOk(fs, Top(m.stack)) && Top(m.stack).pathLength <= |m.path|)
  }

  /** The records a step hands to its listener. */
  function Handed(kind: ListType, path: string, finished: bool): (rs: seq<Record>)
  {
    if kind != ListDone then [Record(kind, path)] else if finished then [DONE] else []
  }

  lemma RoomyFrames(fs: FileSystem, o: Options, m: Machine)
    requires WellFormed(fs) && StackOk(fs, m.stack, m.path) && Roomy(fs, o, m)
    ensures FramesFit(m)
  {
  }

  /** Every step keeps room for what is still to come. */
  lemma RoomyStep(fs: FileSystem, o: Options, m: Machine)
    requires WellFormed(fs) && m.stack != [] && StackOk(fs, m.stack, m.path) && Roomy(fs, o, m)
    requires Top(m.stack).isOpen ==> StreamOk(fs, Top(m.stack)) && Top(m.stack).pathLength <= |m.path|
    requires ListingSpec.Next(fs, o, m).1 == ListDirectory ==> |ListingSpec.Next(fs, o, m).0.path| + 3 < PATH_MAX
    ensures var m' := ListNext(fs, o, m).0; StackOk(fs, m'.stack, m'.path) && Roomy(fs, o, m')
  {
    hide WellFormed, FrameOk, Rest, ListingSpec.Next, Fit, FramesFit, Pending;
    PendingIs(fs, o, m);
    StepCorrect(fs, o, m);
    FramesFitNext(fs, o, m);
    var (m1, kind) := ListingSpec.Next(fs, o, m);
    var (m', rs) := ListNext(fs, o, m);
    FitSuffix(Rest(fs, o, m.stack, m.path), rs, Pending(fs, o, m'));
    FitRest(fs, o, m');
    if kind == ListDirectory {
      DirectoryIsOpen(fs, o, m);
      FramesFitPush(o, m1);
    } else if kind == ListDone {
      FramesFitPop(fs, m, m1.path);
    }
  }

  /** A listing starts with room when its root and all its records fit. */
  lemma RoomyStart(fs: FileSystem, o: Options, root: string)
    requires WellFormed(fs) && EndsWithSeparator(root) && |root| + 2 < PATH_MAX && Fit(Listing(fs, o, root))
    ensures StackOk(fs, Start(root).stack, root) && Roomy(fs, o, Start(root))
  {
    hide WellFormed, StackOk, Rest, Listing, Fit;
    StartIsPendingListing(fs, o, root);
  }
}
