/** The pausable stack machine reports exactly the preorder walk, however it is paused. */
module ListingProofs {
  import opened FileSystems
  import opened ListingSpec

  /** What a directory that is not open yet will contribute. */
  ghost function OpenAndWalk(fs: FileSystem, o: Options, below: seq<Frame>, path: string): (rs: seq<Record>)
    requires WellFormed(fs) && ChainOk(fs, BaseChain(below))
  {
    if Openable(fs, path) then
      Walk(fs, o, FollowToDirectory(fs, Resolve(fs, path)).ino, Inside(below, path), BaseChain(below), 0)
    else [Record(ListError, path)]
  }

  ghost predicate FrameOk(fs: FileSystem, f: Frame, path: string)
  {
    && ChainOk(fs, f.chain)
    && (f.isOpen ==>
          && StreamOk(fs, f) && 0 < f.pathLength <= |path|
          && EndsWithSeparator(path[..f.pathLength]) && Resolve(fs, path[..f.pathLength]) == Found(f.dir))
  }

  /** Frames below the top are open and unfinished, and their paths are nested prefixes of the shared buffer. */
  ghost predicate StackOk(fs: FileSystem, stack: seq<Frame>, path: string)
  {
    && (forall i :: 0 <= i < |stack| ==> FrameOk(fs, stack[i], path))
    && (forall i :: 0 <= i < |stack| - 1 ==> stack[i].isOpen && !stack[i].done)
    && (forall i, j :: 0 <= i < j < |stack| && stack[j].isOpen ==> stack[i].pathLength <= stack[j].pathLength)
    && (|stack| == 1 && !stack[0].isOpen ==> EndsWithSeparator(path))
    && (|stack| > 1 && !Top(stack).isOpen ==> path != "")
  }

  ghost function FrameRest(fs: FileSystem, o: Options, below: seq<Frame>, f: Frame, path: string): (rs: seq<Record>)
    requires WellFormed(fs) && ChainOk(fs, BaseChain(below)) && FrameOk(fs, f, path)
  {
    if f.done then []
    else if f.isOpen then Walk(fs, o, f.dir, path[..f.pathLength], BaseChain(below), f.pos)
    else OpenAndWalk(fs, o, below, path)
  }

  /** Everything the machine has still to report. */
  ghost function Rest(fs: FileSystem, o: Options, stack: seq<Frame>, path: string): (rs: seq<Record>)
    requires WellFormed(fs) && forall i :: 0 <= i < |stack| ==> FrameOk(fs, stack[i], path)
  {
    if stack == [] then []
    else
      var below := Below(stack);
      assert forall i :: 0 <= i < |below| ==> below[i] == stack[i];
      assert below != [] ==> FrameOk(fs, stack[|below| - 1], path);
      FrameRest(fs, o, below, Top(stack), path) + Rest(fs, o, below, path)
  }

  ghost predicate SamePrefix(path: string, path': string, n: nat)
  {
    n <= |path| && n <= |path'| && path[..n] == path'[..n]
  }

  lemma {:induction false} RestFrame(fs: FileSystem, o: Options, stack: seq<Frame>, path: string, path': string)
    requires WellFormed(fs) && forall i :: 0 <= i < |stack| ==> FrameOk(fs, stack[i], path)
    requires forall i :: 0 <= i < |stack| ==> stack[i].isOpen && SamePrefix(path, path', stack[i].pathLength)
    ensures forall i :: 0 <= i < |stack| ==> FrameOk(fs, stack[i], path')
    ensures Rest(fs, o, stack, path') == Rest(fs, o, stack, path)
  {
    if stack != [] {
      RestFrame(fs, o, Below(stack), path, path');
    }
  }

  /** The stack below an open top, whose path ends at `n`, can be kept when the buffer changes beyond `n`. */
  lemma BelowKept(fs: FileSystem, o: Options, below: seq<Frame>, f: Frame, path: string, path': string)
    requires WellFormed(fs) && StackOk(fs, below + [f], path) && f.isOpen && SamePrefix(path, path', f.pathLength)
    ensures forall i :: 0 <= i < |below| ==> FrameOk(fs, below[i], path) && FrameOk(fs, below[i], path')
    ensures Rest(fs, o, below, path') == Rest(fs, o, below, path)
  {
    var stack := below + [f];
    forall i | 0 <= i < |below|
      ensures below[i].isOpen && FrameOk(fs, below[i], path) && SamePrefix(path, path', below[i].pathLength)
    {
      assert below[i] == stack[i];
      assert stack[i].pathLength <= stack[|below|].pathLength;
      assert path[..below[i].pathLength] == path[..f.pathLength][..below[i].pathLength];
      assert path'[..below[i].pathLength] == path'[..f.pathLength][..below[i].pathLength];
    }
    RestFrame(fs, o, below, path, path');
  }

  lemma RestUnfold(fs: FileSystem, o: Options, below: seq<Frame>, f: Frame, path: string)
    requires WellFormed(fs) && StackOk(fs, below + [f], path)
    ensures ChainOk(fs, BaseChain(below)) && FrameOk(fs, f, path)
    ensures forall i :: 0 <= i < |below| ==> FrameOk(fs, below[i], path)
    ensures Rest(fs, o, below + [f], path) == FrameRest(fs, o, below, f, path) + Rest(fs, o, below, path)
  {
    var stack := below + [f];
    assert Below(stack) == below && Top(stack) == f;
    assert forall i :: 0 <= i < |below| ==> below[i] == stack[i];
    assert below != [] ==> FrameOk(fs, stack[|below| - 1], path);
    assert FrameOk(fs, stack[|below|], path);
  }

  /** What a step hands to the listener by itself. */
  function Emitted(kind: ListType, path: string): (rs: seq<Record>)
  {
    if kind == ListDone then [] else [Record(kind, path)]
  }

  /** What the directory that a step enters will contribute. */
  ghost function Entered(fs: FileSystem, o: Options, kind: ListType, stack: seq<Frame>, path: string): (rs: seq<Record>)
    requires WellFormed(fs) && ChainOk(fs, BaseChain(stack))
  {
    if kind == ListDirectory && o.recursive then OpenAndWalk(fs, o, stack, path) else []
  }

  /** The top frame moved on within its directory and the rest of the buffer's prefix is intact. */
  ghost predicate Advanced(fs: FileSystem, below: seq<Frame>, f: Frame, path: string, m: Machine)
  {
    && |m.stack| == |below| + 1 && m.stack[..|below|] == below
    && var f1 := m.stack[|below|];
       && f1.isOpen && f1.dir == f.dir && f1.pathLength == f.pathLength && SamePrefix(path, m.path, f.pathLength)
       && FrameOk(fs, f1, m.path)
  }

  lemma PrefixOfExtension(path: string, n: nat, name: string)
    requires n <= |path|
    ensures SamePrefix(path, path[..n] + name, n) && SamePrefix(path, path[..n], n)
  {
    assert (path[..n] + name)[..n] == path[..n];
    assert path[..n][..n] == path[..n];
  }

  ghost predicate At(fs: FileSystem, d: Ino, prefix: string, pos: nat)
  {
    && d in fs.inodes && fs.inodes[d].Directory? && pos < |fs.inodes[d].entries|
    && fs.inodes[d].entries[pos].ino in fs.inodes
    && EndsWithSeparator(prefix) && Resolve(fs, prefix) == Found(d)
  }

  /** The path of a subdirectory entry leads to the directory that is entered for it. */
  lemma EnteredResolves(fs: FileSystem, o: Options, d: Ino, prefix: string, chain: seq<Ino>, pos: nat)
    requires WellFormed(fs) && At(fs, d, prefix, pos)
    requires Classify(fs, o, chain, fs.inodes[d].entries[pos]).Subdirectory?
    ensures FollowToDirectory(fs, Resolve(fs, prefix + fs.inodes[d].entries[pos].name))
            == Found(Classify(fs, o, chain, fs.inodes[d].entries[pos]).dir)
  {
    hide Resolve;
    ResolveChild(fs, prefix, d, pos);
    assert EntriesOk(fs, d);
  }

  lemma EnteredIsWalked(fs: FileSystem, o: Options, d: Ino, prefix: string, chain: seq<Ino>, pos: nat,
                        stack: seq<Frame>)
    requires WellFormed(fs) && ChainOk(fs, chain) && At(fs, d, prefix, pos)
    requires var k := Classify(fs, o, chain, fs.inodes[d].entries[pos]);
             k.Subdirectory? && stack != [] && BaseChain(stack) == Extend(chain, k.link)
    ensures ChainOk(fs, BaseChain(stack))
    ensures
      var path := prefix + fs.inodes[d].entries[pos].name;
      WalkEntry(fs, o, d, prefix, chain, pos) ==
      [Record(ListDirectory, path)] + Entered(fs, o, ListDirectory, stack, path)
  {
    hide Resolve, WellFormed, Walk, Classify;
    DescentDecreases(fs, o, d, chain, pos);
    EnteredResolves(fs, o, d, prefix, chain, pos);
  }

  /** One entry of a walk and what follows it. */
  lemma WalkUnfold(fs: FileSystem, o: Options, d: Ino, prefix: string, chain: seq<Ino>, pos: nat)
    requires WellFormed(fs) && ChainOk(fs, chain) && At(fs, d, prefix, pos)
    ensures Walk(fs, o, d, prefix, chain, pos)
            == WalkEntry(fs, o, d, prefix, chain, pos) + Walk(fs, o, d, prefix, chain, pos + 1)
  {
  }

  /** Reading on in the open top directory. */
  lemma {:induction false} ReadCorrect(fs: FileSystem, o: Options, below: seq<Frame>, f: Frame, path: string)
    requires WellFormed(fs) && ChainOk(fs, BaseChain(below)) && FrameOk(fs, f, path) && f.isOpen && !f.done
    ensures
      var (m, kind) := Read(fs, o, below, f, path);
      && Advanced(fs, below, f, path, m) && (kind == ListDone ==> m.stack[|below|].done)
      && ChainOk(fs, BaseChain(m.stack))
      && FrameRest(fs, o, below, f, path)
         == Emitted(kind, m.path) + Entered(fs, o, kind, m.stack, m.path)
            + FrameRest(fs, o, below, m.stack[|below|], m.path)
    decreases |fs.inodes[f.dir].entries| - f.pos
  {
    hide Resolve, WellFormed, Classify, OpenAndWalk, ChainOk;
    var es, chain, prefix := fs.inodes[f.dir].entries, BaseChain(below), path[..f.pathLength];
    if f.pos < |es| {
      assert es[f.pos].ino in fs.inodes by { EntryPresent(fs, f.dir, f.pos); }
      var e, f' := es[f.pos], f.(pos := f.pos + 1, chain := chain);
      PrefixOfExtension(path, f.pathLength, e.name);
      WalkUnfold(fs, o, f.dir, prefix, chain, f.pos);
      match Classify(fs, o, chain, e) {
        case Skipped =>
          ReadCorrect(fs, o, below, f', prefix + e.name);
        case Reported(kind) =>
        case Subdirectory(dir, link) =>
          EnteredIsWalked(fs, o, f.dir, prefix, chain, f.pos, below + [f'.(chain := Extend(chain, link))]);
      }
    } else {
      PrefixOfExtension(path, f.pathLength, "");
    }
  }

  lemma EntryPresent(fs: FileSystem, d: Ino, pos: nat)
    requires WellFormed(fs) && d in fs.inodes && fs.inodes[d].Directory? && pos < |fs.inodes[d].entries|
    ensures fs.inodes[d].entries[pos].ino in fs.inodes
  {
    assert EntriesOk(fs, d);
  }

  lemma OpenedResolves(fs: FileSystem, below: seq<Frame>, f: Frame, path: string)
    requires WellFormed(fs) && StackOk(fs, below + [f], path) && !f.isOpen && Openable(fs, path)
    ensures Resolve(fs, Inside(below, path)) == FollowToDirectory(fs, Resolve(fs, path))
    ensures EndsWithSeparator(Inside(below, path))
  {
    hide Resolve, WellFormed, FrameOk, Openable;
    assert (below + [f])[|below|] == f;
    if below != [] {
      ResolveInside(fs, path);
    } else {
      ResolvesToDirectory(fs, path);
    }
  }

  /** A path that ends with a separator leads to a directory itself. */
  lemma ResolvesToDirectory(fs: FileSystem, path: string)
    requires WellFormed(fs) && EndsWithSeparator(path)
    ensures FollowToDirectory(fs, Resolve(fs, path)) == Resolve(fs, path)
  {
  }

  /** Opening the top directory changes nothing in what is still to be reported. */
  lemma OpenCorrect(fs: FileSystem, o: Options, below: seq<Frame>, f: Frame, path: string)
    requires WellFormed(fs) && StackOk(fs, below + [f], path) && !f.isOpen && !f.done && Openable(fs, path)
    ensures
      var g, path' := OpenFrame(fs, below, f, path), Inside(below, path);
      && StackOk(fs, below + [g], path') && SamePrefix(path, path', |path|)
      && ChainOk(fs, BaseChain(below)) && FrameOk(fs, f, path) && FrameOk(fs, g, path')
      && FrameRest(fs, o, below, g, path') == FrameRest(fs, o, below, f, path)
  {
    var g, path', stack := OpenFrame(fs, below, f, path), Inside(below, path), below + [f];
    OpenedResolves(fs, below, f, path);
    hide Resolve, WellFormed;
    assert stack[|below|] == f && FrameOk(fs, stack[|below|], path);
    assert forall i :: 0 <= i < |below| ==> below[i] == stack[i];
    assert below != [] ==> FrameOk(fs, stack[|below| - 1], path);
    assert path'[..|path'|] == path' && path'[..|path|] == path;
    forall i | 0 <= i < |below|
      ensures FrameOk(fs, below[i], path') && below[i].pathLength <= |path|
    {
      assert FrameOk(fs, stack[i], path);
      assert path'[..below[i].pathLength] == path[..below[i].pathLength];
    }
  }

  /** The stack stays in order when only its top frame moves on. */
  lemma AdvancedStackOk(fs: FileSystem, o: Options, below: seq<Frame>, f: Frame, path: string, m: Machine)
    requires WellFormed(fs) && StackOk(fs, below + [f], path) && f.isOpen && Advanced(fs, below, f, path, m)
    ensures StackOk(fs, m.stack, m.path)
    ensures forall i :: 0 <= i < |below| ==> FrameOk(fs, below[i], path) && FrameOk(fs, below[i], m.path)
    ensures Rest(fs, o, below, m.path) == Rest(fs, o, below, path)
  {
    hide Resolve, WellFormed, FrameOk, Rest;
    BelowKept(fs, o, below, f, path, m.path);
    assert m.stack == below + [m.stack[|below|]];
    assert forall i :: 0 <= i < |below| ==> below[i] == (below + [f])[i];
    assert (below + [f])[|below|] == f;
  }

  lemma ReadFromTop(fs: FileSystem, o: Options, below: seq<Frame>, f: Frame, path: string)
    requires WellFormed(fs) && StackOk(fs, below + [f], path) && f.isOpen && !f.done
    ensures ChainOk(fs, BaseChain(below)) && FrameOk(fs, f, path)
    ensures
      var (m, kind) := Read(fs, o, below, f, path);
      && StackOk(fs, m.stack, m.path) && m.stack != [] && Below(m.stack) == below && ChainOk(fs, BaseChain(m.stack))
      && (kind == ListDone ==> Top(m.stack).done)
      && Rest(fs, o, below + [f], path)
         == Emitted(kind, m.path) + Entered(fs, o, kind, m.stack, m.path) + Rest(fs, o, m.stack, m.path)
  {
    hide Resolve, WellFormed, Walk, OpenAndWalk, ChainOk, Read, FrameRest, FrameOk, StackOk, Rest, Entered;
    RestUnfold(fs, o, below, f, path);
    ReadCorrect(fs, o, below, f, path);
    var (m, kind) := Read(fs, o, below, f, path);
    AdvancedStackOk(fs, o, below, f, path, m);
    assert m.stack == below + [m.stack[|below|]];
    RestUnfold(fs, o, below, m.stack[|below|], m.path);
  }

  /** A step within the top frame, described by what it adds to the output. */
  ghost predicate Stepped(fs: FileSystem, o: Options, m: Machine, m1: Machine, kind: ListType)
    requires WellFormed(fs) && m.stack != [] && StackOk(fs, m.stack, m.path)
  {
    && StackOk(fs, m1.stack, m1.path) && m1.stack != [] && Below(m1.stack) == Below(m.stack)
    && ChainOk(fs, BaseChain(m1.stack))
    && (kind == ListDone ==> Top(m1.stack).done)
    && Rest(fs, o, m.stack, m.path)
       == Emitted(kind, m1.path) + Entered(fs, o, kind, m1.stack, m1.path) + Rest(fs, o, m1.stack, m1.path)
  }

  lemma NextByOpening(fs: FileSystem, o: Options, below: seq<Frame>, f: Frame, path: string)
    requires WellFormed(fs) && StackOk(fs, below + [f], path) && !f.isOpen && !f.done && Openable(fs, path)
    ensures
      var m := Machine(below + [f], path);
      var (m1, kind) := Next(fs, o, m);
      Stepped(fs, o, m, m1, kind)
  {
    hide Resolve, WellFormed, Walk, ChainOk, Read, FrameRest, FrameOk, StackOk, Rest, Entered, Openable;
    var g, path' := OpenFrame(fs, below, f, path), Inside(below, path);
    OpenCorrect(fs, o, below, f, path);
    RestUnfold(fs, o, below, f, path);
    RestUnfold(fs, o, below, g, path');
    ReadFromTop(fs, o, below, g, path');
    OpenKeepsBelow(fs, o, below, f, path);
    assert Below(below + [f]) == below && Top(below + [f]) == f;
  }

  lemma NextByFailing(fs: FileSystem, o: Options, below: seq<Frame>, f: Frame, path: string)
    requires WellFormed(fs) && StackOk(fs, below + [f], path) && !f.isOpen && !f.done && !Openable(fs, path)
    ensures
      var m := Machine(below + [f], path);
      var (m1, kind) := Next(fs, o, m);
      Stepped(fs, o, m, m1, kind)
  {
    hide Resolve, WellFormed, Walk, ChainOk, Read, FrameOk, StackOk, Rest, Openable;
    var f' := f.(done := true);
    assert Below(below + [f]) == below && Top(below + [f]) == f;
    assert Below(below + [f']) == below && Top(below + [f']) == f';
    DoneStackOk(fs, below, f, path);
    RestUnfold(fs, o, below, f, path);
    RestUnfold(fs, o, below, f', path);
  }

  lemma NextCorrect(fs: FileSystem, o: Options, m: Machine)
    requires WellFormed(fs) && m.stack != [] && StackOk(fs, m.stack, m.path)
    ensures Top(m.stack).isOpen ==> StreamOk(fs, Top(m.stack)) && Top(m.stack).pathLength <= |m.path|
    ensures Stepped(fs, o, m, Next(fs, o, m).0, Next(fs, o, m).1)
  {
    hide Resolve, WellFormed, Walk, ChainOk, Read, FrameOk, StackOk, Rest, Openable;
    var below, f := Below(m.stack), Top(m.stack);
    assert m.stack == below + [f];
    TopStreamOk(fs, m.stack, m.path);
    if f.done {
      TopChainOk(fs, m.stack, m.path);
    } else if f.isOpen {
      ReadFromTop(fs, o, below, f, m.path);
    } else if Openable(fs, m.path) {
      NextByOpening(fs, o, below, f, m.path);
    } else {
      NextByFailing(fs, o, below, f, m.path);
    }
  }

  lemma TopStreamOk(fs: FileSystem, stack: seq<Frame>, path: string)
    requires stack != [] && StackOk(fs, stack, path)
    ensures Top(stack).isOpen ==> StreamOk(fs, Top(stack)) && Top(stack).pathLength <= |path|
  {
    assert FrameOk(fs, stack[|stack| - 1], path);
  }

  lemma TopChainOk(fs: FileSystem, stack: seq<Frame>, path: string)
    requires stack != [] && StackOk(fs, stack, path)
    ensures ChainOk(fs, BaseChain(stack))
  {
    assert FrameOk(fs, stack[|stack| - 1], path);
  }

  lemma OpenKeepsBelow(fs: FileSystem, o: Options, below: seq<Frame>, f: Frame, path: string)
    requires WellFormed(fs) && StackOk(fs, below + [f], path) && !f.isOpen
    ensures forall i :: 0 <= i < |below| ==> FrameOk(fs, below[i], path) && FrameOk(fs, below[i], Inside(below, path))
    ensures Rest(fs, o, below, Inside(below, path)) == Rest(fs, o, below, path)
  {
    var path' := Inside(below, path);
    forall i | 0 <= i < |below|
      ensures below[i].isOpen && FrameOk(fs, below[i], path) && SamePrefix(path, path', below[i].pathLength)
    {
      assert below[i] == (below + [f])[i];
      assert path'[..below[i].pathLength] == path[..below[i].pathLength];
    }
    RestFrame(fs, o, below, path, path');
  }

  lemma DoneStackOk(fs: FileSystem, below: seq<Frame>, f: Frame, path: string)
    requires StackOk(fs, below + [f], path)
    ensures StackOk(fs, below + [f.(done := true)], path)
  {
    var s, t := below + [f], below + [f.(done := true)];
    assert forall i :: 0 <= i < |below| ==> s[i] == t[i];
    assert s[|below|] == f && FrameOk(fs, s[|below|], path);
  }

  const DONE := Record(ListDone, "")

  /** Everything still to be handed out, with the final record. */
  ghost function Pending(fs: FileSystem, o: Options, m: Machine): (rs: seq<Record>)
    requires WellFormed(fs) && StackOk(fs, m.stack, m.path)
  {
    if m.stack == [] then [] else Rest(fs, o, m.stack, m.path) + [DONE]
  }

  lemma PushCorrect(fs: FileSystem, o: Options, m: Machine)
    requires WellFormed(fs) && m.stack != [] && StackOk(fs, m.stack, m.path) && Top(m.stack).isOpen
    requires !Top(m.stack).done && m.path != ""
    ensures ChainOk(fs, BaseChain(m.stack)) && StackOk(fs, Push(o, m).stack, m.path)
    ensures Rest(fs, o, Push(o, m).stack, m.path) ==
            Entered(fs, o, ListDirectory, m.stack, m.path) + Rest(fs, o, m.stack, m.path)
  {
    hide Resolve, WellFormed, Walk;
    TopChainOk(fs, m.stack, m.path);
    if o.recursive {
      var stack := m.stack + [NewFrame()];
      assert forall i :: 0 <= i < |m.stack| ==> stack[i] == m.stack[i];
      assert stack[|m.stack|] == NewFrame();
      RestUnfold(fs, o, m.stack, NewFrame(), m.path);
    }
  }

  lemma BelowStackOk(fs: FileSystem, stack: seq<Frame>, path: string)
    requires stack != [] && StackOk(fs, stack, path)
    ensures StackOk(fs, Below(stack), path)
  {
    hide FrameOk;
    var below := Below(stack);
    assert forall i :: 0 <= i < |below| ==> below[i] == stack[i];
  }

  lemma RestOfNothing(fs: FileSystem, o: Options, path: string)
    requires WellFormed(fs)
    ensures Rest(fs, o, [], path) == []
  {
  }

  /** Popping the finished top frame leaves the frames below as they were. */
  lemma PopCorrect(fs: FileSystem, o: Options, m: Machine)
    requires WellFormed(fs) && m.stack != [] && StackOk(fs, m.stack, m.path) && Top(m.stack).done
    ensures StackOk(fs, Below(m.stack), m.path)
    ensures Rest(fs, o, Below(m.stack), m.path) == Rest(fs, o, m.stack, m.path)
  {
    hide Resolve, WellFormed, Walk, ChainOk, FrameOk, StackOk, Rest;
    var below, f := Below(m.stack), Top(m.stack);
    assert m.stack == below + [f];
    RestUnfold(fs, o, below, f, m.path);
    BelowStackOk(fs, m.stack, m.path);
  }

  /** A step hands out the next pending record, or pops a frame. */
  lemma StepCorrect(fs: FileSystem, o: Options, m: Machine)
    requires WellFormed(fs) && m.stack != [] && StackOk(fs, m.stack, m.path)
    ensures Top(m.stack).isOpen ==> StreamOk(fs, Top(m.stack)) && Top(m.stack).pathLength <= |m.path|
    ensures
      var (m', rs) := ListNext(fs, o, m);
      && StackOk(fs, m'.stack, m'.path) && Pending(fs, o, m) == rs + Pending(fs, o, m')
      && (|rs| == 1 || (rs == [] && |m'.stack| < |m.stack|))
  {
    hide Resolve, WellFormed, Walk, ChainOk, Read, StackOk, Rest, FrameOk, Next;
    NextCorrect(fs, o, m);
    var (m1, kind) := Next(fs, o, m);
    if kind == ListDirectory {
      DirectoryIsOpen(fs, o, m);
      PushCorrect(fs, o, m1);
    } else if kind == ListDone {
      PopCorrect(fs, o, m1);
      RestOfNothing(fs, o, m1.path);
    }
  }

  lemma {:induction false} ReadDirectoryIsOpen(fs: FileSystem, o: Options, below: seq<Frame>, f: Frame, path: string)
    requires WellFormed(fs) && StreamOk(fs, f) && f.pathLength <= |path| && f.isOpen && !f.done
    requires Read(fs, o, below, f, path).1 == ListDirectory
    ensures var m := Read(fs, o, below, f, path).0;
            m.stack != [] && Top(m.stack).isOpen && !Top(m.stack).done && m.path != ""
    decreases |fs.inodes[f.dir].entries| - f.pos
  {
    var es := fs.inodes[f.dir].entries;
    if f.pos < |es| {
      assert EntriesOk(fs, f.dir);
      if Classify(fs, o, BaseChain(below), es[f.pos]).Skipped? {
        ReadDirectoryIsOpen(fs, o, below, f.(pos := f.pos + 1, chain := BaseChain(below)),
                            path[..f.pathLength] + es[f.pos].name);
      }
    }
  }

  lemma DirectoryIsOpen(fs: FileSystem, o: Options, m: Machine)
    requires WellFormed(fs) && m.stack != [] && StackOk(fs, m.stack, m.path)
    requires Top(m.stack).isOpen ==> StreamOk(fs, Top(m.stack)) && Top(m.stack).pathLength <= |m.path|
    requires Next(fs, o, m).1 == ListDirectory
    ensures var m1 := Next(fs, o, m).0; m1.stack != [] && Top(m1.stack).isOpen && !Top(m1.stack).done && m1.path != ""
  {
    var below, f := Below(m.stack), Top(m.stack);
    if f.isOpen {
      ReadDirectoryIsOpen(fs, o, below, f, m.path);
    } else {
      ReadDirectoryIsOpen(fs, o, below, OpenFrame(fs, below, f, m.path), Inside(below, m.path));
    }
  }

  // ---------- responses ----------

  /** The response slots of one request: `length` slots, two for each record. */
  ghost predicate ChunkOk(length: nat)
  {
    length % 2 == 0 && length > 0
  }

  /** Runs the machine until the response is full or the listing is finished; `used` slots are taken. */
  ghost function Fill(fs: FileSystem, o: Options, m: Machine, length: nat, used: nat): (r: (Machine, seq<Record>))
    requires WellFormed(fs) && m.stack != [] && StackOk(fs, m.stack, m.path) && used < length
    ensures StackOk(fs, r.0.stack, r.0.path)
    decreases |Pending(fs, o, m)|, |m.stack|
  {
    StepCorrect(fs, o, m);
    var (m', rs) := ListNext(fs, o, m);
    var used' := used + 2 * |rs|;
    if m'.stack == [] || used' >= length then (m', rs)
    else
      var (m'', more) := Fill(fs, o, m', length, used');
      (m'', rs + more)
  }

  /** One request of an asynchronous listing. */
  ghost function Request(fs: FileSystem, o: Options, m: Machine, length: nat): (r: (Machine, seq<Record>))
    requires WellFormed(fs) && StackOk(fs, m.stack, m.path) && ChunkOk(length)
    ensures StackOk(fs, r.0.stack, r.0.path)
  {
    if m.stack == [] then (m, []) else Fill(fs, o, m, length, 0)
  }

  /** A response is the next stretch of the pending records, never overflows and always makes progress. */
  lemma {:induction false} FillCorrect(fs: FileSystem, o: Options, m: Machine, length: nat, used: nat)
    requires WellFormed(fs) && m.stack != [] && StackOk(fs, m.stack, m.path) && used < length && length % 2 == 0
    requires used % 2 == 0
    ensures
      var (m', rs) := Fill(fs, o, m, length, used);
      && Pending(fs, o, m) == rs + Pending(fs, o, m')
      && 1 <= |rs| && used + 2 * |rs| <= length && (m'.stack != [] ==> used + 2 * |rs| == length)
    decreases |Pending(fs, o, m)|, |m.stack|
  {
    hide Resolve, WellFormed, StackOk, Rest, ListNext;
    StepCorrect(fs, o, m);
    var (m', rs) := ListNext(fs, o, m);
    if m'.stack == [] {
      FinishingStepReports(fs, o, m);
    } else if used + 2 * |rs| < length {
      FillCorrect(fs, o, m', length, used + 2 * |rs|);
    }
  }

  lemma FinishingStepReports(fs: FileSystem, o: Options, m: Machine)
    requires WellFormed(fs) && m.stack != [] && StackOk(fs, m.stack, m.path)
    requires Top(m.stack).isOpen ==> StreamOk(fs, Top(m.stack)) && Top(m.stack).pathLength <= |m.path|
    ensures ListNext(fs, o, m).0.stack == [] ==> |ListNext(fs, o, m).1| == 1
  {
    hide Resolve, WellFormed, StackOk, Next;
    NextCorrect(fs, o, m);
  }

  /** The responses to a series of requests, and where they leave the listing. */
  ghost function Requests(fs: FileSystem, o: Options, m: Machine, lengths: seq<nat>): (r: (Machine, seq<Record>))
    requires WellFormed(fs) && StackOk(fs, m.stack, m.path) && forall i :: 0 <= i < |lengths| ==> ChunkOk(lengths[i])
    ensures StackOk(fs, r.0.stack, r.0.path)
    decreases lengths
  {
    if lengths == [] then (m, [])
    else
      var (m1, rs) := Request(fs, o, m, lengths[0]);
      var (m2, more) := Requests(fs, o, m1, lengths[1..]);
      (m2, rs + more)
  }

  /**
   * Pausing never changes a listing: after any requests, what was handed out followed by what is pending is
   * the same sequence, and as many requests as there are records always finish it.
   */
  lemma {:induction false} PausingIsInvisible(fs: FileSystem, o: Options, m: Machine, lengths: seq<nat>)
    requires WellFormed(fs) && StackOk(fs, m.stack, m.path) && forall i :: 0 <= i < |lengths| ==> ChunkOk(lengths[i])
    ensures
      var (m', rs) := Requests(fs, o, m, lengths);
      && rs + Pending(fs, o, m') == Pending(fs, o, m)
      && (|lengths| >= |Pending(fs, o, m)| ==> m'.stack == [])
    decreases lengths
  {
    hide Resolve, WellFormed, StackOk, Rest, Fill;
    if lengths != [] {
      assert ChunkOk(lengths[0]);
      if m.stack != [] {
        FillCorrect(fs, o, m, lengths[0], 0);
      }
      PausingIsInvisible(fs, o, Request(fs, o, m, lengths[0]).0, lengths[1..]);
    }
  }

  /** A finished asynchronous listing of a root path is the preorder walk followed by the final record. */
  lemma AsyncListingIsTheWalk(fs: FileSystem, o: Options, root: string, lengths: seq<nat>)
    requires WellFormed(fs) && EndsWithSeparator(root) && forall i :: 0 <= i < |lengths| ==> ChunkOk(lengths[i])
    ensures StackOk(fs, Start(root).stack, Start(root).path)
    ensures
      var (m, rs) := Requests(fs, o, Start(root), lengths);
      m.stack == [] ==> rs == Listing(fs, o, root) + [DONE]
  {
    hide Resolve, WellFormed, Requests, StackOk, Rest, Listing;
    StartIsPendingListing(fs, o, root);
    PausingIsInvisible(fs, o, Start(root), lengths);
  }

  lemma StartStackOk(fs: FileSystem, root: string)
    requires EndsWithSeparator(root)
    ensures StackOk(fs, [] + [NewFrame()], root)
  {
    hide Resolve;
  }

  lemma StartIsPendingListing(fs: FileSystem, o: Options, root: string)
    requires WellFormed(fs) && EndsWithSeparator(root)
    ensures StackOk(fs, Start(root).stack, root) && Rest(fs, o, Start(root).stack, root) == Listing(fs, o, root)
  {
    hide Resolve, WellFormed, Walk, StackOk, Rest, FrameOk, ChainOk;
    var f := NewFrame();
    assert [] + [f] == [f];
    StartStackOk(fs, root);
    RestUnfold(fs, o, [], f, root);
    RestOfNothing(fs, o, root);
    assert Listing(fs, o, root) + [] == Listing(fs, o, root);
  }

  // ---------- synchronous listings ----------

  /** The records before the first error or the final record, and whether it was an error. */
  function UpToError(rs: seq<Record>): (r: (seq<Record>, bool))
  {
    if rs == [] || rs[0].kind == ListDone then ([], false)
    else if rs[0].kind == ListError then ([], true)
    else
      var (more, failed) := UpToError(rs[1..]);
      ([rs[0]] + more, failed)
  }

  /** Runs the machine until it is finished, which is not reported, or there is an error. */
  ghost function Sync(fs: FileSystem, o: Options, m: Machine): (r: (seq<Record>, bool))
    requires WellFormed(fs) && StackOk(fs, m.stack, m.path)
    decreases |Pending(fs, o, m)|, |m.stack|
  {
    if m.stack == [] then ([], false)
    else
      StepCorrect(fs, o, m);
      var (m', rs) := ListNext(fs, o, m);
      if rs == [] then Sync(fs, o, m')
      else if rs[0].kind == ListDone then ([], false)
      else if rs[0].kind == ListError then ([], true)
      else
        var (more, failed) := Sync(fs, o, m');
        (rs + more, failed)
  }

  lemma {:induction false} SyncIsPendingUpToError(fs: FileSystem, o: Options, m: Machine)
    requires WellFormed(fs) && StackOk(fs, m.stack, m.path)
    ensures Sync(fs, o, m) == UpToError(Pending(fs, o, m))
    decreases |Pending(fs, o, m)|, |m.stack|
  {
    hide Resolve, WellFormed, StackOk, Rest, ListNext, Pending;
    if m.stack == [] {
      FinishedHasNothing(fs, o, m);
    } else {
      StepCorrect(fs, o, m);
      var (m', rs) := ListNext(fs, o, m);
      if rs == [] {
        assert rs + Pending(fs, o, m') == Pending(fs, o, m');
        SyncIsPendingUpToError(fs, o, m');
      } else {
        assert (rs + Pending(fs, o, m'))[1..] == Pending(fs, o, m') && rs == [rs[0]];
        if rs[0].kind != ListError && rs[0].kind != ListDone {
          SyncIsPendingUpToError(fs, o, m');
        }
      }
    }
  }

  lemma FinishedHasNothing(fs: FileSystem, o: Options, m: Machine)
    requires WellFormed(fs) && StackOk(fs, m.stack, m.path) && m.stack == []
    ensures Pending(fs, o, m) == []
  {
  }

  /** A synchronous listing is the preorder walk up to its first error, if there is one. */
  lemma SyncListingIsTheWalkUpToError(fs: FileSystem, o: Options, root: string)
    requires WellFormed(fs) && EndsWithSeparator(root)
    ensures StackOk(fs, Start(root).stack, Start(root).path)
    ensures Sync(fs, o, Start(root)) == UpToError(Listing(fs, o, root) + [DONE])
  {
    hide Resolve, WellFormed, Sync, StackOk, Rest, Listing;
    StartIsPendingListing(fs, o, root);
    SyncIsPendingUpToError(fs, o, Start(root));
  }
}
