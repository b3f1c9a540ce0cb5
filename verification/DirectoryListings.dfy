/**
 * Directory listings as linked objects: stack entries, the shared path buffer and the shared chain of followed links.
 */
module DirectoryListings {
  import opened FileSystems
  import opened ListingSpec
  import opened ListingProofs
  import opened PathBuffers
  import opened ListingRoom

  // ---------- the chain of followed links ----------

  class LinkList {
    const ino: Ino
    const next: LinkList?
    ghost const rest: seq<LinkList>

    constructor (ino: Ino, next: LinkList?)
      ensures this.ino == ino && this.next == next && rest == Nodes(next)
    {
      this.ino := ino;
      this.next := next;
      rest := Nodes(next);
    }
  }

  ghost function Nodes(l: LinkList?): (s: seq<LinkList>)
  {
    if l == null then [] else [l] + l.rest
  }

  ghost function NodeSet(l: LinkList?): (s: set<LinkList>)
  {
    set n | n in Nodes(l)
  }

  ghost predicate Linked(l: LinkList?)
    decreases |Nodes(l)|
  {
    l != null ==> l.rest == Nodes(l.next) && Linked(l.next)
  }

  ghost function Inos(nodes: seq<LinkList>): (s: seq<Ino>)
    ensures |s| == |nodes| && forall i :: 0 <= i < |s| ==> s[i] == nodes[i].ino
  {
    if nodes == [] then [] else [nodes[0].ino] + Inos(nodes[1..])
  }

  ghost function Chain(l: LinkList?): (s: seq<Ino>)
  {
    Inos(Nodes(l))
  }

  lemma ChainUnfold(l: LinkList)
    requires Linked(l)
    ensures Linked(l.next) && Chain(l) == [l.ino] + Chain(l.next) && |Nodes(l)| == |Nodes(l.next)| + 1
  {
    assert Nodes(l)[1..] == Nodes(l.next);
  }

  /** Chains never loop: every node on a chain is followed by fewer nodes than the chain has. */
  lemma {:induction false} RestIsShorter(l: LinkList?, n: LinkList)
    requires Linked(l) && n in Nodes(l)
    ensures |n.rest| < |Nodes(l)|
    decreases |Nodes(l)|
  {
    if n != l {
      RestIsShorter(l.next, n);
    }
  }

  lemma OwnNodeOnce(l: LinkList)
    requires Linked(l)
    ensures NodeSet(l) == NodeSet(l.next) + {l} && l !in NodeSet(l.next)
  {
    if l in Nodes(l.next) {
      RestIsShorter(l.next, l);
    }
  }

  /** Allocation and deletion of links: a node is deleted only while it is live. */
  class LinkHeap {
    ghost var made: set<LinkList>
    ghost var freed: set<LinkList>

    ghost predicate Valid()
      reads this
    {
      freed <= made
    }

    ghost function Live(): (s: set<LinkList>)
      reads this
    {
      made - freed
    }

    constructor ()
      ensures Valid() && made == {}
    {
      made, freed := {}, {};
    }

    method New(ino: Ino, next: LinkList?) returns (l: LinkList)
      requires Valid() && Linked(next)
      modifies this
      ensures fresh(l) && l.ino == ino && l.next == next && Linked(l)
      ensures Valid() && made == old(made) + {l} && freed == old(freed) && Live() == old(Live()) + {l}
    {
      l := new LinkList(ino, next);
      made := made + {l};
    }

    method Delete(l: LinkList)
      requires Valid() && l in Live()
      modifies this`freed
      ensures Valid() && freed == old(freed) + {l} && Live() == old(Live()) - {l}
    {
      freed := freed + {l};
    }
  }

  method Seen(link: LinkList?, ino: Ino) returns (found: bool)
    requires Linked(link)
    ensures found <==> ino in Chain(link)
  {
    assert Chain(null) == [];
    hide Chain, Linked, Nodes;
    var previous := link;
    ghost var passed: seq<Ino> := [];
    while previous != null
      invariant Linked(previous) && Chain(link) == passed + Chain(previous) && ino !in passed
      decreases |Nodes(previous)|
    {
      ChainUnfold(previous);
      if previous.ino == ino {
        return true;
      }
      passed := passed + [previous.ino];
      previous := previous.next;
    }
    return false;
  }

  // ---------- stack entries ----------

  class DirectoryListingEntry {
    const parent: DirectoryListingEntry?
    var isOpen: bool
    var done: bool
    var dir: Ino
    var pos: nat
    var pathLength: nat
    var link: LinkList?

    constructor (parent: DirectoryListingEntry?)
      ensures this.parent == parent && link == null && View() == NewFrame()
    {
      this.parent := parent;
      isOpen, done, dir, pos, pathLength, link := false, false, 0, 0, 0, null;
    }

    ghost function View(): (f: Frame)
      reads this
    {
      Frame(isOpen, done, dir, pos, pathLength, Chain(link))
    }

    ghost function ParentLink(): (l: LinkList?)
      reads this, parent
    {
      if parent == null then null else parent.link
    }

    /** The chain the entry keeps alive; a new entry has none yet and relies on its parent's. */
    ghost function Held(): (l: LinkList?)
      reads this, parent
    {
      if link == null then ParentLink() else link
    }

    /** An entry shares its parent's chain, or owns one node in front of it. */
    ghost predicate LinkOk()
      reads this, parent
    {
      Linked(Held()) && Linked(ParentLink()) && (Held() == ParentLink() || (link != null && link.next == ParentLink()))
    }

    /** Opens the stream of a directory whose entries' names go after `pathLength` characters. */
    method Open(dir: Ino, pathLength: nat)
      modifies `isOpen, `dir, `pos, `pathLength
      ensures View() == old(View()).(isOpen := true, dir := dir, pos := 0, pathLength := pathLength)
      ensures LinkOk() == old(LinkOk()) && Held() == old(Held()) && ParentLink() == old(ParentLink())
    {
      isOpen, this.dir, pos, this.pathLength := true, dir, 0, pathLength;
    }

    method Advance()
      modifies `pos
      ensures View() == old(View()).(pos := old(View()).pos + 1)
      ensures LinkOk() == old(LinkOk()) && Held() == old(Held()) && ParentLink() == old(ParentLink())
    {
      pos := pos + 1;
    }

    method Finish()
      modifies `done
      ensures View() == old(View()).(done := true)
      ensures LinkOk() == old(LinkOk()) && Held() == old(Held()) && ParentLink() == old(ParentLink())
    {
      done := true;
    }

    /** Puts a node for a followed link in front of the parent's chain. */
    method FollowLink(heap: LinkHeap, ino: Ino)
      requires LinkOk() && link == ParentLink() && parent != this && heap.Valid() && heap.Live() == NodeSet(Held())
      modifies `link, heap
      ensures LinkOk() && ParentLink() == old(ParentLink()) && link == Held()
      ensures View() == old(View()).(chain := [ino] + old(View()).chain) && heap.Valid()
      ensures heap.Live() == NodeSet(Held())
    {
      var l := heap.New(ino, link);
      ChainUnfold(l);
      OwnNodeOnce(l);
      link := l;
    }

    /** Deletes the node the entry owns, if any, and goes back to the parent's chain. */
    method ResetLink(heap: LinkHeap)
      requires LinkOk() && parent != this && heap.Valid() && heap.Live() == NodeSet(Held())
      modifies `link, heap`freed
      ensures LinkOk() && link == ParentLink() == Held() == old(ParentLink())
      ensures View() == old(View()).(chain := Chain(ParentLink())) && heap.Valid() && heap.Live() == NodeSet(Held())
    {
      if link != null && (parent == null || parent.link != link) {
        OwnNodeOnce(link);
        heap.Delete(link);
        link := null;
      }
      if parent != null {
        link := parent.link;
      }
    }
  }

  // ---------- the listing ----------

  ghost function Last(es: seq<DirectoryListingEntry>): (e: DirectoryListingEntry?)
  {
    if es == [] then null else es[|es| - 1]
  }

  ghost function Lower(es: seq<DirectoryListingEntry>): (s: seq<DirectoryListingEntry>)
    requires es != []
    ensures |s| == |es| - 1 && forall e :: e in s ==> e in es
  {
    es[..|es| - 1]
  }

  /** An entry hangs below the entries `below` it and shows a frame. */
  ghost predicate ShownAbove(below: seq<DirectoryListingEntry>, e: DirectoryListingEntry, f: Frame)
    reads below, e
  {
    e !in below && e.parent == Last(below) && e.LinkOk() && e.View() == f
  }

  /** Entries that have started reading show their frames. */
  ghost predicate Shows(es: seq<DirectoryListingEntry>, stack: seq<Frame>)
    reads es
    decreases |es|
  {
    if es == [] then stack == []
    else
      && stack != [] && Shows(Lower(es), Below(stack)) && ShownAbove(Lower(es), Last(es), Top(stack))
      && Last(es).link == Last(es).Held()
  }

  lemma {:induction false} LowerChainsNested(es: seq<DirectoryListingEntry>, stack: seq<Frame>,
                                             e: DirectoryListingEntry)
    requires Shows(es, stack) && e in es
    ensures Last(es) != null && NodeSet(e.link) <= NodeSet(Last(es).link)
  {
    var last := Last(es);
    if e != last {
      LowerChainsNested(Lower(es), Below(stack), e);
      hide Shows, Chain;
      ParentNested(last);
    }
  }

  lemma InNodeSet(l: LinkList?, n: LinkList)
    ensures n in Nodes(l) <==> n in NodeSet(l)
  {
  }

  lemma OwnNested(e: DirectoryListingEntry)
    ensures NodeSet(e.link) <= NodeSet(e.Held())
  {
  }

  lemma ParentNested(e: DirectoryListingEntry)
    requires e.LinkOk()
    ensures NodeSet(e.ParentLink()) <= NodeSet(e.Held())
  {
    if e.Held() != e.ParentLink() {
      OwnNodeOnce(e.link);
    }
  }

  class DirectoryListing {
    const fs: FileSystem
    const options: Options
    const pathBuffer: PathBuffer
    const heap: LinkHeap
    var top: DirectoryListingEntry?
    const error: bool
    ghost var entries: seq<DirectoryListingEntry>
    ghost var stack: seq<Frame>
    ghost var path: string

    ghost predicate PathValid()
      reads `path, pathBuffer, pathBuffer.data
    {
      pathBuffer.Clean() && path == pathBuffer.AsString()
    }

    /** The live links are exactly those the top entry keeps alive. */
    ghost predicate StackValid()
      reads `entries, `stack, `top, heap, entries
    {
      && top == Last(entries) && heap.Valid()
      && (if entries == [] then stack == [] && heap.Live() == {}
          else
            && stack != [] && Shows(Lower(entries), Below(stack)) && ShownAbove(Lower(entries), top, Top(stack))
            && heap.Live() == NodeSet(top.Held()))
    }

    ghost predicate Valid()
      reads this, pathBuffer, pathBuffer.data, heap, entries
    {
      PathValid() && StackValid()
    }

    ghost function View(): (m: Machine)
      reads `stack, `path
    {
      Machine(stack, path)
    }

    constructor (fs: FileSystem, root: string, options: Options)
      requires NUL !in root
      ensures this.fs == fs && this.options == options
      ensures fresh(pathBuffer) && fresh(pathBuffer.data) && fresh(heap) && fresh(entries)
      ensures error <==> |root| > PATH_MAX
      ensures |root| < PATH_MAX ==> Valid() && View() == Start(root)
    {
      var buffer := new PathBuffer();
      var ok := buffer.Add(root);
      var entry := new DirectoryListingEntry(null);
      this.fs, this.options, pathBuffer, error := fs, options, buffer, !ok;
      heap := new LinkHeap();
      top, entries, stack, path := entry, [entry], [NewFrame()], root;
    }

    /** Cuts the path back. */
    method ResetPath(n: nat)
      requires PathValid() && n <= |path|
      modifies `path, pathBuffer`length, pathBuffer.data
      ensures PathValid() && path == old(path)[..n]
    {
      pathBuffer.Reset(n);
      path := path[..n];
    }

    method AddToPath(name: string)
      requires PathValid() && NUL !in name && |path| + |name| < PATH_MAX
      modifies `path, pathBuffer`length, pathBuffer.data
      ensures PathValid() && path == old(path) + name
    {
      var _ := pathBuffer.Add(name);
      path := path + name;
    }

    /** The top entry and the entries below it; the frame below the top shows the parent's chain. */
    lemma Split()
      requires StackValid() && stack != []
      ensures top != null && entries != [] && top == Last(entries) && heap.Valid()
      ensures Shows(Lower(entries), Below(stack)) && top !in Lower(entries) && top.parent == Last(Lower(entries))
      ensures top.parent != top
      ensures top.LinkOk() && top.View() == Top(stack) && heap.Live() == NodeSet(top.Held())
      ensures Chain(top.ParentLink()) == BaseChain(Below(stack))
    {
      assert Chain(null) == [];
      hide Chain, NodeSet, Linked;
      var below := Lower(entries);
      assert below != [] ==> ShownAbove(Lower(below), Last(below), Top(Below(stack)));
    }

    lemma Join(frames: seq<Frame>)
      requires entries != [] && top == Last(entries) && stack == frames + [top.View()]
      requires Shows(Lower(entries), frames) && top !in Lower(entries) && top.parent == Last(Lower(entries))
      requires top.LinkOk() && heap.Valid() && heap.Live() == NodeSet(top.Held())
      ensures StackValid()
    {
      hide Chain, NodeSet, Linked, Shows, DirectoryListingEntry.LinkOk, DirectoryListingEntry.View;
      assert Below(stack) == frames;
    }

    /** Forgets the link of the previous entry. */
    method DropLink()
      requires StackValid() && stack != []
      modifies `stack, heap`freed, top`link
      ensures StackValid() && stack == Below(old(stack)) + [Top(old(stack)).(chain := BaseChain(Below(old(stack))))]
      ensures top.link == top.ParentLink() == top.Held()
    {
      hide *;
      ghost var frames := Below(stack);
      Split();
      assert Shows(Lower(entries), frames);
      top.ResetLink(heap);
      stack := frames + [top.View()];
      Join(frames);
    }

    /** Adds a separator to the path of every directory but the root. */
    method EnterPath()
      requires Valid() && stack != [] && |Inside(Below(stack), path)| < PATH_MAX
      modifies `path, pathBuffer`length, pathBuffer.data
      ensures Valid() && path == Inside(Below(stack), old(path)) && pathBuffer.length == |path|
    {
      hide StackValid, CString, BaseChain, Below;
      NoParentAtRoot();
      if top.parent != null {
        AddToPath("/");
      }
    }

    /** Opens the stream of the top directory. */
    method OpenTop(dir: Ino, pathLength: nat)
      requires StackValid() && stack != []
      modifies `stack, top`isOpen, top`dir, top`pos, top`pathLength
      ensures StackValid()
      ensures var reading := Top(old(stack)).(isOpen := true, dir := dir, pos := 0, pathLength := pathLength);
              stack == Below(old(stack)) + [reading]
    {
      hide *;
      ghost var frames := Below(stack);
      Split();
      assert Shows(Lower(entries), frames);
      top.Open(dir, pathLength);
      stack := frames + [top.View()];
      Join(frames);
    }

    method AdvanceTop()
      requires StackValid() && stack != []
      modifies `stack, top`pos
      ensures StackValid() && stack == Below(old(stack)) + [Top(old(stack)).(pos := Top(old(stack)).pos + 1)]
      ensures top.link == old(top.link) && top.ParentLink() == old(top.ParentLink()) && top.Held() == old(top.Held())
    {
      hide *;
      ghost var frames := Below(stack);
      Split();
      assert Shows(Lower(entries), frames);
      top.Advance();
      stack := frames + [top.View()];
      Join(frames);
    }

    method FinishTop()
      requires StackValid() && stack != []
      modifies `stack, top`done
      ensures StackValid() && stack == Below(old(stack)) + [Top(old(stack)).(done := true)]
    {
      hide *;
      ghost var frames := Below(stack);
      Split();
      assert Shows(Lower(entries), frames);
      top.Finish();
      stack := frames + [top.View()];
      Join(frames);
    }

    /** Remembers a link that is followed into a directory. */
    method FollowTop(ino: Ino)
      requires StackValid() && stack != [] && top.link == top.ParentLink()
      modifies `stack, heap, top`link
      ensures StackValid() && stack == Below(old(stack)) + [Top(old(stack)).(chain := [ino] + Top(old(stack)).chain)]
      ensures top.link == top.Held()
    {
      hide *;
      ghost var frames := Below(stack);
      Split();
      assert Shows(Lower(entries), frames);
      top.FollowLink(heap, ino);
      stack := frames + [top.View()];
      Join(frames);
    }

    /** Starts a subdirectory of the top directory. */
    method Push()
      requires StackValid() && stack != [] && top.link == top.Held()
      modifies `stack, `top, `entries
      ensures StackValid() && stack == old(stack) + [NewFrame()] && fresh(top) && entries == old(entries) + [top]
    {
      hide *;
      Split();
      var e := new DirectoryListingEntry(top);
      PushShows(e);
      stack := stack + [NewFrame()];
      entries := entries + [e];
      top := e;
      Join(old(stack));
    }

    lemma PushShows(e: DirectoryListingEntry)
      requires StackValid() && stack != [] && top.link == top.Held()
      requires e !in entries && e.parent == top && e.link == null && e.View() == NewFrame()
      ensures Lower(entries + [e]) == entries && Last(entries + [e]) == e && Last(entries) == top
      ensures Shows(entries, stack) && e.LinkOk() && e.Held() == top.Held()
    {
      Split();
      hide NodeSet;
    }

    /** Ends the top directory: its entry is deleted, after giving up the link it owns. */
    method Pop()
      requires StackValid() && stack != []
      modifies `stack, `top, `entries, heap`freed, top`link
      ensures StackValid() && stack == Below(old(stack)) && entries == Lower(old(entries))
    {
      hide *;
      var current := top;
      Split();
      assert Shows(Lower(entries), Below(stack));
      current.ResetLink(heap);
      top := current.parent;
      entries := Lower(entries);
      stack := Below(stack);
      PopShows(current);
    }

    lemma PopShows(e: DirectoryListingEntry)
      requires e.parent == top == Last(entries) && Shows(entries, stack) && e.link == e.ParentLink() == e.Held()
      requires heap.Valid() && heap.Live() == NodeSet(e.Held())
      ensures StackValid()
    {
    }

    /** No entry on the stack ever holds a deleted link. */
    lemma NoDanglingLink(e: DirectoryListingEntry, n: LinkList)
      requires StackValid() && e in entries && n in Nodes(e.link)
      ensures n in heap.made && n !in heap.freed
    {
      hide StackValid, Shows, Linked, Chain, NodeSet, DirectoryListingEntry.LinkOk, DirectoryListingEntry.View;
      TopIsLast();
      Split();
      InNodeSet(e.link, n);
      ParentNested(top);
      if e != top {
        assert entries == Lower(entries) + [top];
        LowerChainsNested(Lower(entries), Below(stack), e);
      } else {
        OwnNested(top);
      }
    }

    /** Ends a listing, finished or not: every link ever made has been deleted, each once. */
    method PopAll()
      requires StackValid()
      modifies `stack, `top, `entries, heap`freed, entries
      ensures StackValid() && stack == [] && entries == [] && top == null && heap.freed == heap.made
    {
      hide *;
      TopIsLast();
      while top != null
        invariant StackValid() && (forall e :: e in entries ==> e in old(entries))
        invariant top != null ==> top in entries && stack != []
        decreases |entries|
      {
        Pop();
        TopIsLast();
      }
      TopIsLast();
    }

    lemma TopListed()
      requires Valid() && stack != []
      ensures top != null && top in entries
    {
      hide StackValid, PathValid;
      TopIsLast();
    }

    lemma TopIsLastOf()
      requires Valid()
      ensures top == null <==> stack == []
    {
      hide StackValid, PathValid;
      TopIsLast();
    }

    lemma TopIsLast()
      requires StackValid()
      ensures if top == null then entries == [] && stack == [] && heap.freed == heap.made
              else top in entries && stack != []
    {
      hide NodeSet, Shows;
      assert heap.made == heap.Live() + heap.freed;
    }

    lemma NoParentAtRoot()
      requires StackValid() && stack != []
      ensures top != null && (top.parent == null <==> Below(stack) == [])
    {
      Split();
      hide DirectoryListingEntry.LinkOk, DirectoryListingEntry.View, ShownAbove;
    }

    /** The top entry shows the top frame field by field. */
    lemma TopShows()
      requires StackValid() && stack != []
      ensures top != null && top.pathLength == Top(stack).pathLength && top.pos == Top(stack).pos
      ensures top.dir == Top(stack).dir
      ensures top.isOpen == Top(stack).isOpen && top.done == Top(stack).done && Chain(top.link) == Top(stack).chain
      ensures top.link == top.ParentLink() ==> Linked(top.link)
    {
      Split();
      hide NodeSet, Shows, Chain, Linked, StackValid;
    }

    /** Cuts the path back to the directory's own and forgets the link of the previous entry. */
    method Rewind()
      requires Valid() && stack != [] && Top(stack).pathLength <= |path|
      modifies `stack, `path, pathBuffer`length, pathBuffer.data, heap`freed, top`link
      ensures Valid() && View() == Rewound(old(View())) && top.link == top.ParentLink() == top.Held()
    {
      hide StackValid, PathValid, BaseChain, Below, Top, Chain, Linked, DirectoryListingEntry.ParentLink;
      TopShows();
      ResetPath(top.pathLength);
      DropLink();
    }

    /** What an entry is, by its type and, where that does not settle it, by stat. */
    method Classified(e: Dirent) returns (k: Kind)
      requires top != null && Linked(top.link) && e.ino in fs.inodes
      ensures k == Classify(fs, options, Chain(top.link), e)
    {
      hide Chain, Linked;
      match e.dtype
      case DtDir => k := DirectoryKind(e.name, e.ino, Missing);
      case DtFile => k := Reported(ListFile);
      case DtLink =>
        if options.followLinks {
          k := Inspected(e);
        } else {
          k := Reported(ListLink);
        }
      case DtUnknown => k := Inspected(e);
    }

    method Inspected(e: Dirent) returns (k: Kind)
      requires top != null && Linked(top.link) && e.ino in fs.inodes
      ensures k == Inspect(fs, options, Chain(top.link), e)
    {
      hide Chain, Linked;
      if e.statFails {
        return Reported(ListError);
      }
      match fs.inodes[e.ino]
      case File => k := Reported(ListFile);
      case Directory(_, _, _) => k := DirectoryKind(e.name, e.ino, Missing);
      case Symlink(target) =>
        if !options.followLinks {
          return Reported(ListLink);
        }
        var looping := Seen(top.link, e.ino);
        if looping || target.Missing? {
          k := Reported(ListLink);
        } else if IsDirectory(fs, target) {
          k := DirectoryKind(e.name, target.ino, Found(e.ino));
        } else {
          k := Reported(ListFile);
        }
    }

    /** Takes the next entry of the stream. */
    method Take(e: Dirent) returns (k: Kind)
      requires Valid() && stack != [] && top.link == top.ParentLink() == top.Held() && e.ino in fs.inodes
      requires NUL !in e.name && |path| + |e.name| < PATH_MAX
      modifies `stack, `path, pathBuffer`length, pathBuffer.data, heap, top`pos, top`link
      ensures Valid() && k == Classify(fs, options, Top(old(stack)).chain, e)
      ensures View() == Took(old(View()), e.name, LinkOf(k))
      ensures |path| == |old(path)| + |e.name| && top.link == top.Held()
    {
      hide StackValid, PathValid, Below, Top, Chain, Linked, Classify, DirectoryListingEntry.LinkOk,
        DirectoryListingEntry.ParentLink, DirectoryListingEntry.Held;
      TopShows();
      AdvanceTop();
      BelowAndTop(Below(old(stack)), Top(old(stack)).(pos := Top(old(stack)).pos + 1));
      AddToPath(e.name);
      k := Classified(e);
      if k.Subdirectory? && k.link.Found? {
        FollowTop(k.link.ino);
      }
    }

    /** Reads entries of the open top directory until one is to be reported. */
    method Read() returns (kind: ListType)
      requires Valid() && WellFormed(fs) && stack != [] && Readable(fs, options, View())
      modifies `stack, `path, pathBuffer`length, pathBuffer.data, heap, top`done, top`pos, top`link
      ensures Valid() && (View(), kind) == ListingSpec.Read(fs, options, Below(old(stack)), Top(old(stack)), old(path))
      ensures kind == ListDirectory ==> |path| + 3 < PATH_MAX && top.link == top.Held()
      decreases |fs.inodes[Top(stack).dir].entries| - Top(stack).pos
    {
      hide StackValid, PathValid, BaseChain, Below, Top, Chain, Linked, Classify, Extend, WellFormed, EntriesOk, Walk,
           Rewound, Took, ListingSpec.Read, DirectoryListingEntry.LinkOk, DirectoryListingEntry.ParentLink,
           DirectoryListingEntry.Held;
      ghost var m := View();
      Rewind();
      RewoundTop(m);
      TopShows();
      ghost var rewound := View();
      var es := fs.inodes[top.dir].entries;
      if top.pos == |es| {
        ReadEnds(fs, options, m);
        FinishTop();
        kind := if fs.inodes[top.dir].readFails then ListError else ListDone;
      } else {
        var e := es[top.pos];
        ReadableEntry(fs, options, m);
        var k := Take(e);
        ReadTakes(fs, options, m);
        match k
        case Skipped => kind := Read();
        case Reported(reported) => kind := reported;
        case Subdirectory(_, _) => kind := ListDirectory;
      }
    }

    /** Opens the top directory, or reports that it cannot be opened. */
    method OpenDirectory() returns (ok: bool)
      requires Valid() && stack != [] && !Top(stack).isOpen && |Inside(Below(stack), path)| < PATH_MAX
      modifies `stack, `path, pathBuffer`length, pathBuffer.data, top`isOpen, top`done, top`dir, top`pos, top`pathLength
      ensures Valid() && ok == Openable(fs, old(path))
      ensures
        var below, f := Below(old(stack)), Top(old(stack));
        View() == if ok then Machine(below + [OpenFrame(fs, below, f, old(path))], Inside(below, old(path)))
                  else Machine(below + [f.(done := true)], old(path))
    {
      hide StackValid, PathValid, Resolve, Below, Top, Inside;
      TopShows();
      var d := FollowToDirectory(fs, Resolve(fs, CurrentPath()));
      ok := d.Found? && fs.inodes[d.ino].openable;
      if ok {
        EnterPath();
        OpenTop(d.ino, pathBuffer.length);
      } else {
        FinishTop();
      }
    }

    /** The path so far. */
    function CurrentPath(): (p: string)
      requires PathValid()
      reads `path, pathBuffer, pathBuffer.data
      ensures p == path
    {
      pathBuffer.Value()
    }

    /** One step of the top directory. */
    method Next() returns (kind: ListType)
      requires Valid() && WellFormed(fs) && stack != [] && StackOk(fs, stack, path) && Roomy(fs, options, View())
      modifies this, pathBuffer, pathBuffer.data, heap, top
      ensures Top(old(stack)).isOpen ==>
                StreamOk(fs, Top(old(stack))) && Top(old(stack)).pathLength <= |old(path)|
      ensures Valid() && (View(), kind) == ListingSpec.Next(fs, options, old(View()))
      ensures top == old(top) && entries == old(entries)
      ensures kind == ListDirectory ==> |path| + 3 < PATH_MAX && top.link == top.Held()
    {
      hide StackValid, PathValid, Resolve, Below, Top, Inside, StackOk, Roomy, Rest, Readable, ListingSpec.Read,
           Openable, WellFormed, DirectoryListingEntry.Held;
      TopShows();
      TopStreamOk(fs, stack, path);
      if top.done {
        return ListDone;
      }
      RoomyReadable(fs, options, View());
      if !top.isOpen {
        var ok := OpenDirectory();
        if !ok {
          return ListError;
        }
        BelowAndTop(Below(old(stack)), OpenFrame(fs, Below(old(stack)), Top(old(stack)), old(path)));
      }
      kind := Read();
    }

    /** One step of the listing; what it reports and the path it reports it for. */
    method Step() returns (kind: ListType, at: string)
      requires Valid() && WellFormed(fs) && stack != [] && StackOk(fs, stack, path) && Roomy(fs, options, View())
      modifies this, pathBuffer, pathBuffer.data, heap, top
      ensures StepReady(fs, old(View())) && Valid() && StackOk(fs, stack, path) && Roomy(fs, options, View())
      ensures (View(), Handed(kind, at, stack == [])) == ListNext(fs, options, old(View()))
      ensures (top == null <==> stack == []) && (stack == [] ==> kind == ListDone)
      ensures forall e :: e in entries ==> e in old(entries) || fresh(e)
    {
      hide StackOk, WellFormed, Roomy, FramesFit, StackValid, PathValid, ListingSpec.Next, Below, Lower,
           DirectoryListingEntry.Held;
      ghost var m := View();
      TopStreamOk(fs, stack, path);
      RoomyFrames(fs, options, m);
      FramesFitNext(fs, options, m);
      kind := Next();
      RoomyStep(fs, options, m);
      at := CurrentPath();
      if kind == ListDirectory {
        if options.recursive {
          Push();
        }
      } else if kind == ListDone {
        Pop();
      }
      TopIsLast();
    }
  }
}
