/** Recursive deletion: what the loops and calls do to the disk, with any call failing at any time. */
module RecursiveDelete {
  import opened FileSystems
  import opened PathBuffers
  import opened Disks
  import opened Purges
  import opened DeletionSpec

  // ---------- what a step may do ----------

  /** Where a text leads. */
  ghost function LeadOf(nodes: Nodes, cwd: Path, text: string): (w: Where)
    ensures w.Dir? ==> w.path in nodes && nodes[w.path].DirNode?
  {
    Lead(nodes, StartOf(cwd, text), Split(text))
  }

  ghost function FindOf(nodes: Nodes, cwd: Path, text: string): (s: Spot)
  {
    if text == "" then NoSpot else Find(nodes, StartOf(cwd, text), Split(text))
  }

  /** Whether a path names anything. */
  ghost predicate Names(s: Spot)
  {
    s.Named? || s.Reached?
  }

  ghost predicate LeadsTo(nodes: Nodes, cwd: Path, text: string, q: Path)
  {
    text != "" && Leads(nodes, StartOf(cwd, text), Split(text), q)
  }

  /** Nothing outside the subtree is gone; success means all of it is, or that the path to it was lost on the way. */
  ghost predicate Outcome(before: Nodes, after: Nodes, p: Path, ok: bool, lost: bool)
  {
    RemovedWithin(before, after, p) && (ok ==> after == Without(before, p) || lost)
  }

  lemma ChildSpot(nodes: Nodes, cwd: Path, text: string, q: Path, name: string)
    requires LeadsTo(nodes, cwd, text, q) && '/' !in name
    ensures
      var w, f := LeadOf(nodes, cwd, text), FindOf(nodes, cwd, text + "/" + name);
      && (w.Dir? && Plain(name) ==> f == Named(q + [name]))
      && (w.Dir? && !Plain(name) ==> f == SpotOf(Enter(nodes, q, name)))
      && (w == Absent ==> f == NoSpot && LeadOf(nodes, cwd, text + "/" + name) == Absent)
  {
    ExtendText(cwd, text, name);
    FindIn(nodes, StartOf(cwd, text), Split(text), name);
    LeadOn(nodes, StartOf(cwd, text), Split(text), name);
  }

  /** A separator at the end does not change where a text leads. */
  lemma SlashLeads(nodes: Nodes, cwd: Path, text: string)
    requires text != ""
    ensures LeadOf(nodes, cwd, text + "/") == LeadOf(nodes, cwd, text)
    ensures FindRemovable(nodes, StartOf(cwd, text + "/"), Split(text + "/"))
            == FindRemovable(nodes, StartOf(cwd, text), Split(text))
  {
    hide *;
    ExtendText(cwd, text, "");
    assert text + "/" + "" == text + "/";
    SlashNames(nodes, StartOf(cwd, text), Split(text));
    LeadOfIs(nodes, cwd, text);
    LeadOfIs(nodes, cwd, text + "/");
  }

  lemma LeadOfIs(nodes: Nodes, cwd: Path, text: string)
    ensures LeadOf(nodes, cwd, text) == Lead(nodes, StartOf(cwd, text), Split(text))
  {
  }

  lemma LeadsKeptOf(before: Nodes, after: Nodes, cwd: Path, text: string, q: Path)
    requires Shrunk(before, after) && LeadsTo(before, cwd, text, q)
    ensures LeadsTo(after, cwd, text, q)
  {
    LeadsKept(before, after, StartOf(cwd, text), Split(text), q);
  }

  ghost function PurgedOf(nodes: Nodes, cwd: Path, text: string, q: Path): (r: Nodes)
  {
    Purged(nodes, StartOf(cwd, text), Split(text), q)
  }

  ghost function RemovalOf(nodes: Nodes, cwd: Path, text: string, q: Path): (r: (Nodes, Errno))
  {
    Removal(nodes, StartOf(cwd, text), Split(text), q)
  }

  ghost function TakenOf(nodes: Nodes, cwd: Path, text: string, q: Path, name: string): (r: Nodes)
  {
    Taken(nodes, StartOf(cwd, text), Split(text), q, name)
  }

  ghost function TakenAtOf(nodes: Nodes, cwd: Path, text: string, p: Path): (r: Nodes)
  {
    TakenAt(nodes, StartOf(cwd, text), Split(text), p)
  }

  // ---------- what the buffer shows ----------

  /** The name the buffer shows once it is added behind `text` and a separator: at the limit a character is lost. */
  function ShownName(text: string, name: string): (shown: string)
  {
    if |text| + 1 + |name| == PATH_MAX && name != "" then name[..|name| - 1] else name
  }

  lemma ShownIs(text: string, name: string)
    requires |text| + 1 + |name| <= PATH_MAX && name != ""
    ensures (text + "/" + name)[..Shown(|text| + 1, |name|)] == text + "/" + ShownName(text, name)
  {
  }

  /** A directory's text with its separator, unless that is the character lost. */
  function Slashed(text: string): (shown: string)
  {
    if |text| + 1 == PATH_MAX then text else text + "/"
  }

  /** The buffer stands at the entries of a directory. */
  ghost predicate AtDirectory(buffer: PathBuffer, text: string)
    reads buffer, buffer.data
  {
    buffer.Valid() && buffer.length == |text| + 1 && buffer.AsString() == Slashed(text)
  }

  /** It can be cut back to there. */
  ghost predicate Extends(buffer: PathBuffer, text: string)
    reads buffer, buffer.data
  {
    && buffer.Valid() && |text| + 1 <= PATH_MAX && Slashed(text) <= buffer.AsString()
    && (|text| + 1 == PATH_MAX ==> buffer.AsString() == text)
  }

  /** Goes back from an entry to its directory. */
  method Back(buffer: PathBuffer, ghost text: string, pathLength: nat)
    requires Extends(buffer, text) && pathLength == |text| + 1
    modifies buffer, buffer.data
    ensures AtDirectory(buffer, text)
  {
    buffer.Reset(pathLength);
  }

  /** Adds an entry's name; nothing fits behind a lost separator. */
  method AddName(buffer: PathBuffer, ghost text: string, name: string) returns (ok: bool)
    requires AtDirectory(buffer, text) && name != "" && NUL !in name
    modifies buffer, buffer.data
    ensures buffer.Valid() && (ok <==> |text| + 1 + |name| <= PATH_MAX)
    ensures ok ==> Extends(buffer, text) && buffer.AsString() == text + "/" + ShownName(text, name)
    ensures ok ==> if |text| + 1 + |name| < PATH_MAX then buffer.Clean() else buffer.Full() && !buffer.Clean()
  {
    hide CString;
    ok := buffer.Add(name);
    if ok {
      ShownIs(text, name);
    }
  }

  lemma AtEnd(buffer: PathBuffer, text: string)
    requires AtDirectory(buffer, text)
    ensures Extends(buffer, text) && text <= buffer.AsString() && buffer.length == |text| + 1
  {
  }

  // ---------- a single entry ----------

  /** What deleting an entry may do: it acts on the name the buffer shows, if that is a name at all. */
  ghost predicate EntryOutcome(before: Nodes, after: Nodes, cwd: Path, text: string, q: Path, name: string, ok: bool)
  {
    var shown, lost := ShownName(text, name), LeadOf(after, cwd, text) == Absent;
    if Plain(shown) then Outcome(before, after, q + [shown], ok, lost) else after == before && (ok ==> lost)
  }

  /** Unlinking what the buffer shows. */
  lemma UnlinkEntry(nodes: Nodes, cwd: Path, text: string, q: Path, name: string)
    requires TreeOk(nodes) && LeadsTo(nodes, cwd, text, q) && name != "" && '/' !in name
    ensures
      var shown := ShownName(text, name);
      var c, (after, e) := q + [shown], Unlinked(nodes, FindOf(nodes, cwd, text + "/" + shown));
      && EntryOutcome(nodes, after, cwd, text, q, name, e != Failed)
      && (Plain(shown) && (c in nodes ==> !nodes[c].DirNode?) ==> e != Failed)
      && (Plain(shown) && (c in nodes ==> !nodes[c].DirNode?) && LeadOf(nodes, cwd, text) == Dir(q) ==>
            after == nodes - {c})
      && (LeadOf(nodes, cwd, text) == Absent ==> after == nodes)
  {
    var shown := ShownName(text, name);
    assert q in nodes && q != [] ==> ParentOk(nodes, q);
    hide TreeOk, Split, Lead, Find;
    ChildSpot(nodes, cwd, text, q, shown);
    var s := FindOf(nodes, cwd, text + "/" + shown);
    if s.Named? && (s.path in nodes ==> !nodes[s.path].DirNode?) {
      NothingBelow(nodes, s.path);
    }
  }

  /** The file asked for is gone exactly when its name is the one shown. */
  lemma LimitDeletesAnother(nodes: Nodes, text: string, q: Path, name: string)
    requires |text| + 1 + |name| <= PATH_MAX && name != "" && q + [name] in nodes
    ensures
      var c := q + [ShownName(text, name)];
      && (q + [name] !in nodes - {c} <==> |text| + 1 + |name| < PATH_MAX)
      && (|text| + 1 + |name| == PATH_MAX ==> !(c <= q + [name]))
      && (|text| + 1 + |name| == PATH_MAX && c in nodes ==> !RemovedWithin(nodes, nodes - {c}, q + [name]))
  {
    var shown := ShownName(text, name);
    assert (q + [shown])[|q|] == shown && (q + [name])[|q|] == name;
    assert shown != name ==> !(q + [shown] <= q + [name]) && !(q + [name] <= q + [shown]);
  }

  /**
   * Unlinks an entry. The file asked for is gone exactly when its path stays below the limit: at the limit it stays,
   * and a file whose name is one character shorter goes instead.
   */
  method DeleteFile(disk: Disk, buffer: PathBuffer, ghost text: string, ghost q: Path, name: string) returns (ok: bool)
    requires disk.Valid() && LeadsTo(disk.nodes, disk.cwd, text, q) && AtDirectory(buffer, text)
    requires name != "" && '/' !in name && NUL !in name
    modifies disk, buffer, buffer.data
    ensures disk.Valid() && disk.faults >= old(disk.faults)
    ensures EntryOutcome(old(disk.nodes), disk.nodes, disk.cwd, text, q, name, ok)
    ensures ok ==> Extends(buffer, text)
    ensures var c := q + [ShownName(text, name)];
            && disk.faults == old(disk.faults) && |text| + 1 + |name| <= PATH_MAX && Plain(ShownName(text, name))
            && (c in old(disk.nodes) ==> !old(disk.nodes)[c].DirNode?) ==>
              ok && disk.nodes == if LeadOf(old(disk.nodes), disk.cwd, text) == Dir(q) then old(disk.nodes) - {c}
                                  else old(disk.nodes)
    ensures var c := q + [name];
            && disk.faults == old(disk.faults) && LeadOf(old(disk.nodes), disk.cwd, text) == Dir(q)
            && c in old(disk.nodes) && !old(disk.nodes)[c].DirNode? && Plain(name) ==>
              (c !in disk.nodes <==> |text| + 1 + |name| < PATH_MAX)
  {
    hide TreeOk, Split, CString, Lead, Find, Enter, Extends, AtDirectory, Unlinked;
    ghost var before := disk.nodes;
    NothingDone(before, disk.cwd, text, q, name);
    ok := AddName(buffer, text, name);
    if !ok {
      return;
    }
    UnlinkEntry(before, disk.cwd, text, q, name);
    if q + [name] in before {
      LimitDeletesAnother(before, text, q, name);
    }
    var e := disk.Unlink(buffer.Value());
    ok := e.Fine? || e.NoEntry?;
  }

  lemma NothingDone(nodes: Nodes, cwd: Path, text: string, q: Path, name: string)
    ensures EntryOutcome(nodes, nodes, cwd, text, q, name, false)
  {
  }

  // ---------- the loops ----------

  /** Where the text of an entry points. */
  lemma EntrySpot(nodes: Nodes, cwd: Path, text: string, q: Path, name: string) returns (p: Path)
    requires TreeOk(nodes) && LeadsTo(nodes, cwd, text, q) && q in nodes && name != "" && '/' !in name
    ensures
      var shown := ShownName(text, name);
      var s := FindOf(nodes, cwd, text + "/" + shown);
      && ActsOn(s, p) && s != NoDirectory && (Plain(shown) ==> p == q + [shown] && !s.Reached?)
      && (s == NoSpot ==> LeadOf(nodes, cwd, text) == Absent) && (s.Named? ==> LeadOf(nodes, cwd, text) == Dir(q))
    ensures |Under(nodes, q + [name])| < |Under(nodes, q)|
  {
    var shown := ShownName(text, name);
    assert q != [] ==> ParentOk(nodes, q);
    hide TreeOk, Split, Lead, Find, Under;
    FewerBelow(nodes, q, name);
    ChildSpot(nodes, cwd, text, q, shown);
    var s := FindOf(nodes, cwd, text + "/" + shown);
    p := if s.Reached? then s.path else q + [shown];
  }

  /** What the deletion of an entry through its own text means for its directory. */
  lemma EntryDone(before: Nodes, after: Nodes, cwd: Path, text: string, q: Path, name: string, p: Path, ok: bool)
    requires LeadsTo(before, cwd, text, q) && '/' !in name
    requires
      var longer := text + "/" + ShownName(text, name);
      var s := FindOf(before, cwd, longer);
      && ActsOn(s, p) && (Plain(ShownName(text, name)) ==> p == q + [ShownName(text, name)])
      && (s == NoSpot ==> LeadOf(before, cwd, text) == Absent) && s != NoDirectory
      && Outcome(before, after, p, ok, FindOf(after, cwd, longer) == NoSpot)
      && (!Names(s) ==> after == before)
      && (!Plain(ShownName(text, name)) && s.Reached? ==> after == before && !ok)
    ensures EntryOutcome(before, after, cwd, text, q, name, ok)
  {
    var shown := ShownName(text, name);
    hide Split, Lead, Find, Enter;
    LeadsKeptOf(before, after, cwd, text, q);
    ChildSpot(before, cwd, text, q, shown);
    ChildSpot(after, cwd, text, q, shown);
  }

  /** The same when no call failed. */
  lemma EntryTaken(nodes: Nodes, cwd: Path, text: string, q: Path, name: string)
    requires LeadsTo(nodes, cwd, text, q) && name != "" && '/' !in name && ShownName(text, name) == name
    ensures
      var s := FindOf(nodes, cwd, text + "/" + name);
      && (IsDot(name) ==> TakenOf(nodes, cwd, text, q, name) == nodes)
      && (Plain(name) ==> TakenOf(nodes, cwd, text, q, name) ==
                          if s.Named? then TakenAtOf(nodes, cwd, text + "/" + name, q + [name]) else nodes)
  {
    hide Split, Lead, Find, Enter, TakenAt;
    ChildSpot(nodes, cwd, text, q, name);
    ExtendText(cwd, text, name);
  }

  lemma StillExtends(buffer: PathBuffer, text: string, shown: string)
    requires buffer.Valid() && |text| + 1 < PATH_MAX && text + "/" + shown <= buffer.AsString()
    ensures Extends(buffer, text)
  {
    hide CString;
    var s := buffer.AsString();
    assert s[..|text| + 1] == (text + "/" + shown)[..|text| + 1] == text + "/";
  }

  /** Deletes an entry that is a directory; dot entries are skipped. */
  method DeleteDir(disk: Disk, buffer: PathBuffer, ghost text: string, ghost q: Path, name: string) returns (ok: bool)
    requires disk.Valid() && LeadsTo(disk.nodes, disk.cwd, text, q) && q in disk.nodes && AtDirectory(buffer, text)
    requires name != "" && '/' !in name && NUL !in name
    modifies disk, buffer, buffer.data
    ensures disk.Valid() && disk.faults >= old(disk.faults)
    ensures if IsDot(name) then ok && disk.nodes == old(disk.nodes)
            else EntryOutcome(old(disk.nodes), disk.nodes, disk.cwd, text, q, name, ok)
    ensures ok ==> Extends(buffer, text)
    ensures && disk.faults == old(disk.faults) && |text| + 1 + |name| < PATH_MAX
            && Fits(old(disk.nodes), q + [name], |text| + 1 + |name|) ==>
              ok && disk.nodes == TakenOf(old(disk.nodes), disk.cwd, text, q, name)
    decreases |Under(disk.nodes, q)|, 0, 0
  {
    hide TreeOk, Split, CString, Lead, Find, Enter, Extends, AtDirectory, Fits, Under, EntryOutcome, Outcome, LeadsTo,
         TakenOf, TakenAtOf;
    ghost var before := disk.nodes;
    AtEnd(buffer, text);
    if ShownName(text, name) == name {
      EntryTaken(before, disk.cwd, text, q, name);
    }
    if IsDot(name) {
      return true;
    }
    NothingDone(before, disk.cwd, text, q, name);
    ok := AddName(buffer, text, name);
    if !ok {
      return;
    }
    ghost var shown := ShownName(text, name);
    ghost var p := EntrySpot(before, disk.cwd, text, q, name);
    ok := DeleteRecursively(disk, buffer, text + "/" + shown, p, false);
    EntryDone(before, disk.nodes, disk.cwd, text, q, name, p, ok);
    if ok {
      StillExtends(buffer, text, shown);
    }
  }

  /** What deleting the path in the buffer does without faults. */
  ghost predicate ClearedAs(before: Nodes, after: Nodes, cwd: Path, text: string, ok: bool)
  {
    (after, ok) == if text == "" then (before, false) else Cleared(before, StartOf(cwd, text), Split(text))
  }

  /** What is left of that when the buffer is full: a file or a link can go, a directory cannot be entered. */
  ghost function AtLimit(nodes: Nodes, s: Spot): (r: (Nodes, bool))
  {
    if s.Named? && s.path in nodes && !nodes[s.path].DirNode? then (nodes - {s.path}, true) else (nodes, false)
  }

  /** Deletes what the buffer names: a directory with all its contents, or a file, or a link itself. */
  method DeleteRecursively(disk: Disk, buffer: PathBuffer, ghost text: string, ghost p: Path, failOnMissing: bool)
    returns (ok: bool)
    requires disk.Valid() && (buffer.Clean() || buffer.Full()) && buffer.AsString() == text
    requires ActsOn(FindOf(disk.nodes, disk.cwd, text), p)
    requires buffer.Clean() && !failOnMissing ==> !FindOf(disk.nodes, disk.cwd, text).Reached?
    modifies disk, buffer, buffer.data
    ensures disk.Valid() && disk.faults >= old(disk.faults)
    ensures Outcome(old(disk.nodes), disk.nodes, p, ok, !failOnMissing && FindOf(disk.nodes, disk.cwd, text) == NoSpot)
    ensures !Names(FindOf(old(disk.nodes), disk.cwd, text)) ==> disk.nodes == old(disk.nodes) && (ok ==> !failOnMissing)
    ensures ok && failOnMissing ==>
              p in old(disk.nodes) && FindRemovable(old(disk.nodes), StartOf(disk.cwd, text), Split(text)) == Named(p)
    ensures ok ==> buffer.Valid() && text <= buffer.AsString()
    ensures old(!buffer.Clean()) && FindOf(old(disk.nodes), disk.cwd, text).Reached? ==>
              disk.nodes == old(disk.nodes) && !ok
    ensures old(!buffer.Clean()) && failOnMissing && disk.faults == old(disk.faults) ==>
              (disk.nodes, ok) == AtLimit(old(disk.nodes), FindOf(old(disk.nodes), disk.cwd, text))
    ensures var s := FindOf(old(disk.nodes), disk.cwd, text);
            && old(buffer.Clean()) && disk.faults == old(disk.faults)
            && (Names(s) ==> Fits(old(disk.nodes), p, |text|)) ==>
              if failOnMissing then ClearedAs(old(disk.nodes), disk.nodes, disk.cwd, text, ok)
              else s != NoDirectory ==>
                ok && disk.nodes == if s.Named? then TakenAtOf(old(disk.nodes), disk.cwd, text, p) else old(disk.nodes)
    decreases if buffer.Clean() then |Under(disk.nodes, p)| else 0, 3
  {
    hide TreeOk, Split, CString, Without, Lead, Enter, Fits, Find, FindRemovable, Cleared, TakenAtOf, Under;
    ghost var before := disk.nodes;
    StartFacts(before, disk.cwd, text, p);
    var e, isDirectory := disk.Lstat(buffer.Value());
    if !e.Fine? {
      return !failOnMissing && e.NoEntry?;
    }
    if !isDirectory {
      e := disk.Unlink(buffer.Value());
      ok := e.Fine? || (!failOnMissing && e.NoEntry?);
      return;
    }
    if Fits(before, p, |text|) {
      EntryReach(before, p, |text|, "");
    }
    ghost var clean := buffer.Clean();
    ok := buffer.Add("/");
    if !ok {
      return;
    }
    assert clean && AtDirectory(buffer, text);
    ok := DeleteOpened(disk, buffer, text, p, failOnMissing);
  }

  /** What the first look at the path tells. */
  lemma StartFacts(nodes: Nodes, cwd: Path, text: string, p: Path)
    requires TreeOk(nodes) && ActsOn(FindOf(nodes, cwd, text), p)
    ensures
      var s := FindOf(nodes, cwd, text);
      && Outcome(nodes, nodes, p, false, false)
      && (p !in nodes ==> nodes == Without(nodes, p))
      && (s.Named? && p in nodes && !nodes[p].DirNode? ==>
            && Outcome(nodes, nodes - {p}, p, true, false) && ClearedAs(nodes, nodes - {p}, cwd, text, true)
            && FindRemovable(nodes, StartOf(cwd, text), Split(text)) == Named(p)
            && TakenAtOf(nodes, cwd, text, p) == nodes - {p})
      && (s.Named? && p !in nodes ==>
            ClearedAs(nodes, nodes, cwd, text, false) && TakenAtOf(nodes, cwd, text, p) == nodes)
      && (s == NoSpot || s == NoDirectory ==> ClearedAs(nodes, nodes, cwd, text, false))
      && (s.Reached? || (s.Named? && p in nodes && nodes[p].DirNode?) ==>
            && text != "" && LeadOf(nodes, cwd, text) == Dir(p)
            && ClearedAs(nodes, RemovalOf(nodes, cwd, text, p).0, cwd, text, RemovalOf(nodes, cwd, text, p).1 == Fine)
            && (s.Named? ==>
                  && RemovalOf(nodes, cwd, text, p).1 != Failed
                  && RemovalOf(nodes, cwd, text, p).0 == TakenAtOf(nodes, cwd, text, p)))
  {
    var s := FindOf(nodes, cwd, text);
    if p !in nodes || !nodes[p].DirNode? {
      NothingBelow(nodes, p);
    }
    FindLeadsOf(nodes, cwd, text);
    hide TreeOk, Split, Lead, Enter, Find, FindRemovable, Removal, Purged;
    assert p !in nodes ==> nodes - {p} == nodes;
    if s.Named? && p in nodes && nodes[p].DirNode? {
      NamedRemoval(nodes, StartOf(cwd, text), Split(text), p);
    }
  }

  lemma FindLeadsOf(nodes: Nodes, cwd: Path, text: string)
    ensures
      var s := FindOf(nodes, cwd, text);
      && (s.Reached? ==> LeadOf(nodes, cwd, text) == Dir(s.path))
      && (s.Named? && s.path in nodes && nodes[s.path].DirNode? ==> LeadOf(nodes, cwd, text) == Dir(s.path))
      && (s.Named? ==> FindRemovable(nodes, StartOf(cwd, text), Split(text)) == s)
  {
    if text != "" {
      var start, names := StartOf(cwd, text), Split(text);
      var n := |names| - 1;
      assert names[..n] + [names[n]] == names;
      LeadOn(nodes, start, names[..n], names[n]);
      if Find(nodes, start, names).Named? {
        PlainRemovable(nodes, nodes, start, names);
      }
    }
  }

  /** Deletes an existing directory: its contents, then itself. */
  method DeleteOpened(disk: Disk, buffer: PathBuffer, ghost text: string, ghost q: Path, failOnMissing: bool)
    returns (ok: bool)
    requires disk.Valid() && text != "" && LeadOf(disk.nodes, disk.cwd, text) == Dir(q) && AtDirectory(buffer, text)
    requires !failOnMissing ==> FindOf(disk.nodes, disk.cwd, text) == Named(q)
    modifies disk, buffer, buffer.data
    ensures disk.Valid() && disk.faults >= old(disk.faults)
    ensures Outcome(old(disk.nodes), disk.nodes, q, ok, !failOnMissing && FindOf(disk.nodes, disk.cwd, text) == NoSpot)
    ensures ok && failOnMissing ==> FindRemovable(old(disk.nodes), StartOf(disk.cwd, text), Split(text)) == Named(q)
    ensures ok ==> buffer.Valid() && text <= buffer.AsString()
    ensures disk.faults == old(disk.faults) && Fits(old(disk.nodes), q, |text|) ==>
              var (after, e) := RemovalOf(old(disk.nodes), disk.cwd, text, q);
              disk.nodes == after && (ok <==> e == Fine || (!failOnMissing && e == NoEntry))
    decreases |Under(disk.nodes, q)|, 2
  {
    hide TreeOk, Split, CString, Without, Lead, Enter, Fits, Find, FindRemovable, Under, Purged, DirectoryRemoved;
    ghost var before := disk.nodes;
    SlashedLeads(before, disk.cwd, text);
    var e, listing := disk.OpenDirectory(buffer.Value());
    if !e.Fine? {
      return !failOnMissing && e.NoEntry?;
    }
    ok := DeleteContents(disk, buffer, text, q, listing);
    BelowIsWithin(before, disk.nodes, q);
    if !ok {
      return;
    }
    // The buffer names the directory itself again.
    ok := disk.ReadOrClose();
    if !ok {
      return;
    }
    ghost var emptied := disk.nodes;
    SlashedLeads(emptied, disk.cwd, text);
    AtEnd(buffer, text);
    WithoutIsWithin(before, q);
    e := disk.RemoveDirectory(buffer.Value());
    ok := e.Fine? || (!failOnMissing && e.NoEntry?);
    FinalOutcome(before, emptied, disk.cwd, text, q);
  }

  /** The separator at the end, there or not, does not matter. */
  lemma SlashedLeads(nodes: Nodes, cwd: Path, text: string)
    requires text != ""
    ensures
      var shown := Slashed(text);
      && shown != "" && Lead(nodes, StartOf(cwd, shown), Split(shown)) == LeadOf(nodes, cwd, text)
      && FindRemovable(nodes, StartOf(cwd, shown), Split(shown)) ==
         FindRemovable(nodes, StartOf(cwd, text), Split(text))
  {
    hide Split, Lead, FindRemovable;
    SlashLeads(nodes, cwd, text);
  }

  lemma BelowIsWithin(before: Nodes, after: Nodes, q: Path)
    requires RemovedBelow(before, after, q)
    ensures RemovedWithin(before, after, q)
  {
  }

  /** The removal of the directory named in the buffer. */
  lemma FinalOutcome(before: Nodes, emptied: Nodes, cwd: Path, text: string, q: Path)
    requires text != "" && LeadOf(before, cwd, text) == Dir(q) && RemovedBelow(before, emptied, q)
    ensures
      var (after, e) := DirectoryRemoved(emptied, FindRemovable(emptied, StartOf(cwd, text), Split(text)));
      && (e == Fine ==>
            after == Without(before, q) && FindRemovable(before, StartOf(cwd, text), Split(text)) == Named(q))
      && (e != Fine ==> after == emptied)
      && (e == NoEntry && FindOf(before, cwd, text) == Named(q) ==> FindOf(emptied, cwd, text) == NoSpot)
  {
    hide Split, Lead, Find, FindRemovable, DirectoryRemoved, Without, RemovedBelow;
    RemovalOutcome(before, emptied, StartOf(cwd, text), Split(text), q);
  }

  /** What the buffer showed for the first `n` entries is gone. */
  ghost predicate ShownGone(nodes: Nodes, q: Path, text: string, listing: seq<Entry>, n: nat)
  {
    forall j, x :: 0 <= j < n <= |listing| && !IsDot(listing[j].name) && x in nodes ==>
                     !(Plain(ShownName(text, listing[j].name)) && q + [ShownName(text, listing[j].name)] <= x)
  }

  /** Deletes the entries of a directory one by one; each time the buffer is cut back to the directory. */
  method DeleteContents(disk: Disk, buffer: PathBuffer, ghost text: string, ghost q: Path, listing: seq<Entry>)
    returns (ok: bool)
    requires disk.Valid() && text != "" && LeadOf(disk.nodes, disk.cwd, text) == Dir(q)
    requires q in disk.nodes && disk.nodes[q] == DirNode(listing) && AtDirectory(buffer, text)
    modifies disk, buffer, buffer.data
    ensures disk.Valid() && disk.faults >= old(disk.faults) && RemovedBelow(old(disk.nodes), disk.nodes, q)
    ensures ok ==> LeadOf(disk.nodes, disk.cwd, text) == Absent || ShownGone(disk.nodes, q, text, listing, |listing|)
    ensures ok ==> AtDirectory(buffer, text)
    ensures disk.faults == old(disk.faults) && Fits(old(disk.nodes), q, |text|) ==>
              ok && disk.nodes == PurgedOf(old(disk.nodes), disk.cwd, text, q)
    decreases |Under(disk.nodes, q)|, 1
  {
    hide TreeOk, Split, CString, Lead, Find, Fits, Under, LeadOf, Extends, AtDirectory, ShownGone, EntryOutcome,
         PurgedOf, TakenOf, Gone;
    ghost var before := disk.nodes;
    ContentsStart(before, disk.cwd, text, q, listing);
    AtEnd(buffer, text);
    var pathLength := buffer.length;
    var i := 0;
    while i < |listing|
      invariant 0 <= i <= |listing| && disk.Valid() && AtDirectory(buffer, text) && pathLength == |text| + 1
      invariant LeadsTo(disk.nodes, disk.cwd, text, q) && q in disk.nodes && disk.nodes[q] == DirNode(listing)
      invariant RemovedBelow(before, disk.nodes, q) && disk.faults >= old(disk.faults)
      invariant LeadOf(disk.nodes, disk.cwd, text) == Absent || ShownGone(disk.nodes, q, text, listing, i)
      invariant disk.faults == old(disk.faults) && Fits(before, q, |text|) ==>
                  Purging(before, disk.nodes, disk.cwd, text, q, listing, i)
    {
      ok := disk.ReadOrClose();
      if !ok {
        return;
      }
      ghost var now := disk.nodes;
      UnderShrinks(before, now, q);
      ok := DeleteEntry(disk, buffer, text, q, listing[i]);
      EntryKeeps(before, now, disk.nodes, disk.cwd, text, q, listing, i, ok);
      if disk.faults == old(disk.faults) && Fits(before, q, |text|) {
        FitsKept(before, now, q, |text|);
        PurgingOn(before, now, disk.cwd, text, q, listing, i);
      }
      if !ok {
        return;
      }
      Back(buffer, text, pathLength);
      i := i + 1;
    }
    ok := disk.ReadOrClose();
    if disk.faults == old(disk.faults) && Fits(before, q, |text|) {
      PurgingDone(before, disk.nodes, disk.cwd, text, q, listing);
    }
  }

  /** The entries before `i` have been deleted as purging does. */
  ghost predicate Purging(before: Nodes, now: Nodes, cwd: Path, text: string, q: Path, listing: seq<Entry>, i: nat)
  {
    && PurgedOf(now, cwd, text, q) == PurgedOf(before, cwd, text, q)
    && (LeadOf(now, cwd, text) == Dir(q) ==> Gone(now, q, listing, i))
  }

  lemma ContentsStart(nodes: Nodes, cwd: Path, text: string, q: Path, listing: seq<Entry>)
    requires text != "" && LeadOf(nodes, cwd, text) == Dir(q)
    ensures LeadsTo(nodes, cwd, text, q) && ShownGone(nodes, q, text, listing, 0) && RemovedBelow(nodes, nodes, q)
    ensures Purging(nodes, nodes, cwd, text, q, listing, 0)
  {
  }

  lemma PurgingOn(before: Nodes, now: Nodes, cwd: Path, text: string, q: Path, listing: seq<Entry>, i: nat)
    requires TreeOk(now) && LeadsTo(now, cwd, text, q) && q in now && now[q] == DirNode(listing) && i < |listing|
    requires Purging(before, now, cwd, text, q, listing, i)
    ensures Purging(before, TakenOf(now, cwd, text, q, listing[i].name), cwd, text, q, listing, i + 1)
  {
    assert ListingOk(now, q);
    assert EntryOk(now, q, listing[i]);
    hide TreeOk, Split, Lead, Taken, Purged, Gone;
    TakenIsProgress(now, StartOf(cwd, text), Split(text), q, listing, i);
  }

  lemma PurgingDone(before: Nodes, now: Nodes, cwd: Path, text: string, q: Path, listing: seq<Entry>)
    requires TreeOk(now) && LeadsTo(now, cwd, text, q) && q in now && now[q] == DirNode(listing)
    requires Purging(before, now, cwd, text, q, listing, |listing|)
    ensures now == PurgedOf(before, cwd, text, q)
  {
    hide TreeOk, Split, Lead;
    if LeadOf(now, cwd, text) == Dir(q) {
      SkipGone(now, q, listing, 0, |listing|);
    }
  }

  /** Deleting one entry, or a part of it, leaves the directory and the other entries as they are. */
  lemma EntryKeeps(before: Nodes, now: Nodes, after: Nodes, cwd: Path, text: string, q: Path, listing: seq<Entry>,
                   i: nat, ok: bool)
    requires RemovedBelow(before, now, q) && LeadsTo(now, cwd, text, q) && i < |listing|
    requires q in now && now[q] == DirNode(listing)
    requires LeadOf(now, cwd, text) == Absent || ShownGone(now, q, text, listing, i)
    requires if IsDot(listing[i].name) then after == now
             else EntryOutcome(now, after, cwd, text, q, listing[i].name, ok)
    ensures RemovedBelow(before, after, q) && LeadsTo(after, cwd, text, q) && q in after && after[q] == now[q]
    ensures ok ==> LeadOf(after, cwd, text) == Absent || ShownGone(after, q, text, listing, i + 1)
  {
    hide Lead, Split;
    assert Shrunk(now, after);
    LeadsKeptOf(now, after, cwd, text, q);
    LeadShrinks(now, after, StartOf(cwd, text), Split(text));
  }

  /** Whatever is below a directory is at or below a listed child. */
  lemma BelowListedChild(nodes: Nodes, q: Path, listing: seq<Entry>, x: Path) returns (i: nat)
    requires TreeOk(nodes) && q in nodes && nodes[q] == DirNode(listing) && x in nodes && q < x
    ensures i < |listing| && !IsDot(listing[i].name) && q + [listing[i].name] <= x
  {
    ChildOnTheWay(nodes, q, x);
    hide TreeOk;
    var c := x[..|q| + 1];
    assert c == q + [c[|q|]] && c[..|q|] == q;
    i :| 0 <= i < |listing| && listing[i].name == c[|q|];
  }

  /** The directory's contents are gone when every listed child is, and no child's path ends at the limit. */
  lemma NothingLeft(nodes: Nodes, q: Path, text: string, listing: seq<Entry>)
    requires TreeOk(nodes) && q in nodes && nodes[q] == DirNode(listing)
    requires forall i :: 0 <= i < |listing| ==> |text| + 1 + |listing[i].name| != PATH_MAX
    requires ShownGone(nodes, q, text, listing, |listing|)
    ensures forall x :: x in nodes ==> !(q < x)
  {
    assert ListingOk(nodes, q);
    forall x | x in nodes
      ensures !(q < x)
    {
      if q < x {
        var _ := BelowListedChild(nodes, q, listing, x);
      }
    }
  }

  /** One directory entry, by the type the directory reports or, failing that, by stat. */
  method DeleteEntry(disk: Disk, buffer: PathBuffer, ghost text: string, ghost q: Path, entry: Entry) returns (ok: bool)
    requires disk.Valid() && LeadsTo(disk.nodes, disk.cwd, text, q) && AtDirectory(buffer, text)
    requires q in disk.nodes && disk.nodes[q].DirNode? && entry in disk.nodes[q].listing
    modifies disk, buffer, buffer.data
    ensures disk.Valid() && disk.faults >= old(disk.faults)
    ensures if IsDot(entry.name) then disk.nodes == old(disk.nodes)
            else EntryOutcome(old(disk.nodes), disk.nodes, disk.cwd, text, q, entry.name, ok)
    ensures ok ==> Extends(buffer, text)
    ensures disk.faults == old(disk.faults) && Fits(old(disk.nodes), q, |text|) ==>
              ok && disk.nodes == TakenOf(old(disk.nodes), disk.cwd, text, q, entry.name)
    decreases |Under(disk.nodes, q)|, 0, 1
  {
    hide TreeOk, Split, CString, Lead, Find, Enter, Fits, Under, Extends, AtDirectory, EntryOutcome, TakenOf, Taken;
    ghost var before := disk.nodes;
    EntryFacts(before, disk.cwd, text, q, entry);
    NothingDone(before, disk.cwd, text, q, entry.name);
    AtEnd(buffer, text);
    var pathLength := buffer.length;
    var directory := entry.dtype.DtDir?;
    if entry.dtype.DtUnknown? {
      ok := AddName(buffer, text, entry.name);
      if !ok {
        return;
      }
      EntryStat(before, disk.cwd, text, q, entry);
      var e, isDirectory := disk.Lstat(buffer.Value());
      if !e.Fine? {
        ok := e.NoEntry?;
        return;
      }
      Back(buffer, text, pathLength);
      directory := isDirectory;
    }
    if directory {
      ok := DeleteDir(disk, buffer, text, q, entry.name);
    } else {
      ok := DeleteFile(disk, buffer, text, q, entry.name);
    }
  }

  lemma EntryFacts(nodes: Nodes, cwd: Path, text: string, q: Path, e: Entry)
    requires TreeOk(nodes) && LeadsTo(nodes, cwd, text, q) && q in nodes && nodes[q].DirNode? && e in nodes[q].listing
    ensures EntryOk(nodes, q, e)
    ensures Fits(nodes, q, |text|) ==>
              Fits(nodes, q + [e.name], |text| + 1 + |e.name|) && |text| + 1 + |e.name| < PATH_MAX
    ensures var c := q + [e.name];
            ShownName(text, e.name) == e.name && Plain(e.name) && (c in nodes ==> !nodes[c].DirNode?) ==>
              TakenOf(nodes, cwd, text, q, e.name) ==
              if LeadOf(nodes, cwd, text) == Dir(q) then nodes - {c} else nodes
  {
    assert ListingOk(nodes, q);
    assert Listed(nodes[q].listing, e.name);
    hide TreeOk, Fits, Lead, Split;
    if Fits(nodes, q, |text|) {
      EntryReach(nodes, q, |text|, e.name);
      ChildFits(nodes, q, |text|, e.name);
    }
  }

  /** What stat says of an entry whose type the directory does not know. */
  lemma EntryStat(nodes: Nodes, cwd: Path, text: string, q: Path, e: Entry)
    requires TreeOk(nodes) && LeadsTo(nodes, cwd, text, q) && q in nodes && nodes[q].DirNode? && EntryOk(nodes, q, e)
    ensures
      var shown := ShownName(text, e.name);
      var stat := Stat(nodes, FindOf(nodes, cwd, text + "/" + shown));
      && stat.0 != Failed
      && (stat.0 == NoEntry ==> EntryOutcome(nodes, nodes, cwd, text, q, e.name, true))
      && (stat.0 == NoEntry && shown == e.name ==> TakenOf(nodes, cwd, text, q, e.name) == nodes)
      && (stat.0 == Fine && !stat.1 ==> Plain(shown) && q + [shown] in nodes && !nodes[q + [shown]].DirNode?)
  {
    var shown := ShownName(text, e.name);
    assert q != [] ==> ParentOk(nodes, q);
    hide Lead, Split, Find, TreeOk;
    ChildSpot(nodes, cwd, text, q, shown);
    if q + [shown] !in nodes {
      NothingBelow(nodes, q + [shown]);
      assert nodes - {q + [shown]} == nodes;
    }
  }

  // ---------- the whole deletion ----------

  /** A path goes on after a link to a directory. */
  ghost predicate GoesThroughLink(nodes: Nodes, cwd: Path, path: string)
  {
    path != "" && ThroughLink(nodes, StartOf(cwd, path), Split(path))
  }

  /** What a path is about, with a link there not followed. */
  ghost function SubjectOf(nodes: Nodes, cwd: Path, path: string): (s: Spot)
  {
    if path == "" then NoSpot else Subject(nodes, StartOf(cwd, path), Split(path))
  }

  /** What the buffer shows of a path. */
  function ShownPath(path: string): (text: string)
  {
    if |path| == PATH_MAX then path[..PATH_MAX - 1] else path
  }

  /**
   * Deletes the tree at a path. Success removes exactly the node the path is about, with all below it; failure only
   * nodes at or below where the path leads, which is the same place unless the path goes on after a link to a
   * directory. Without faults the effect is exact. All of this is about the path that the buffer shows.
   */
  method Delete(disk: Disk, path: string) returns (ok: bool)
    requires disk.Valid() && NUL !in path
    modifies disk
    ensures disk.Valid() && disk.faults >= old(disk.faults)
    ensures var s := FindOf(old(disk.nodes), disk.cwd, ShownPath(path));
            if Names(s) then RemovedWithin(old(disk.nodes), disk.nodes, s.path)
            else !ok && disk.nodes == old(disk.nodes)
    ensures var text := ShownPath(path);
            var f, s := FindOf(old(disk.nodes), disk.cwd, text), SubjectOf(old(disk.nodes), disk.cwd, text);
            Names(f) && !GoesThroughLink(old(disk.nodes), disk.cwd, text) ==>
              Names(s) && RemovedWithin(old(disk.nodes), disk.nodes, s.path)
    ensures var s := SubjectOf(old(disk.nodes), disk.cwd, ShownPath(path));
            ok ==> Names(s) && s.path in old(disk.nodes) && disk.nodes == Without(old(disk.nodes), s.path)
    ensures GoesThroughLink(old(disk.nodes), disk.cwd, ShownPath(path)) ==> !ok
    ensures var s := FindOf(old(disk.nodes), disk.cwd, path);
            |path| < PATH_MAX && disk.faults == old(disk.faults) &&
            (Names(s) ==> Fits(old(disk.nodes), s.path, |path|)) ==>
              ClearedAs(old(disk.nodes), disk.nodes, disk.cwd, path, ok)
    ensures |path| == PATH_MAX && disk.faults == old(disk.faults) ==>
              (disk.nodes, ok) == AtLimit(old(disk.nodes), FindOf(old(disk.nodes), disk.cwd, ShownPath(path)))
    ensures |path| > PATH_MAX ==> !ok && disk.nodes == old(disk.nodes)
  {
    hide TreeOk, Split, CString, Without, Lead, Find, Fits, FindRemovable, Cleared, ThroughLink, Subject;
    ghost var before, text := disk.nodes, ShownPath(path);
    ghost var s := FindOf(before, disk.cwd, text);
    ghost var p := if Names(s) then s.path else [];
    PathFacts(before, disk.cwd, text);
    var buffer := new PathBuffer();
    ok := buffer.Add(path);
    if !ok {
      return;
    }
    assert buffer.AsString() == text && (buffer.Clean() <==> |path| < PATH_MAX);
    ok := DeleteRecursively(disk, buffer, text, p, true);
  }

  lemma PathFacts(nodes: Nodes, cwd: Path, path: string)
    requires TreeOk(nodes)
    ensures
      var f, s := FindOf(nodes, cwd, path), SubjectOf(nodes, cwd, path);
      && (Names(f) ==> Names(s) && (!GoesThroughLink(nodes, cwd, path) ==> s.path == f.path))
      && (GoesThroughLink(nodes, cwd, path) && Names(f) ==>
            FindRemovable(nodes, StartOf(cwd, path), Split(path)) != Named(f.path))
      && (!Names(f) ==> ClearedAs(nodes, nodes, cwd, path, false) && !GoesThroughLink(nodes, cwd, path))
      && RemovedWithin(nodes, nodes, if Names(f) then f.path else [])
  {
    if path != "" {
      var start, names := StartOf(cwd, path), Split(path);
      hide Split, TreeOk;
      SubjectIs(nodes, start, names);
      if ThroughLink(nodes, start, names) {
        ThroughLinkEmpties(nodes, start, names);
      }
    }
  }

  /**
   * Without faults a deletion succeeds exactly on a file or a link, and on a directory that the path names itself
   * without passing through its contents. A directory whose path does pass through them is left half deleted.
   */
  lemma DeletionSucceedsIff(nodes: Nodes, cwd: Path, path: string, after: Nodes, ok: bool)
    requires TreeOk(nodes) && ClearedAs(nodes, after, cwd, path, ok)
    ensures
      var f := FindOf(nodes, cwd, path);
      && (ok ==> Names(f) && f.path in nodes && after == Without(nodes, f.path))
      && (f.Named? && f.path in nodes && !nodes[f.path].DirNode? ==> ok)
      && (Names(f) && f.path in nodes && nodes[f.path].DirNode? ==>
            && (ok <==> && FindRemovable(nodes, StartOf(cwd, path), Split(path)) == Named(f.path)
                        && SteadyOf(nodes, cwd, path, f.path))
            && (!ok ==> after == PurgedOf(nodes, cwd, path, f.path)))
  {
    hide Split, Find, FindRemovable, TreeOk, Steady, Lead;
    if path != "" {
      SucceedsIff(nodes, StartOf(cwd, path), Split(path));
      FailedIsPurged(nodes, StartOf(cwd, path), Split(path));
    }
  }

  lemma FailedIsPurged(nodes: Nodes, start: Path, names: seq<string>)
    requires TreeOk(nodes) && names != []
    ensures
      var f := Find(nodes, start, names);
      (f.Named? || f.Reached?) && f.path in nodes && nodes[f.path].DirNode? && !Cleared(nodes, start, names).1 ==>
        Cleared(nodes, start, names).0 == Purged(nodes, start, names, f.path)
  {
    var f := Find(nodes, start, names);
    FindLeads(nodes, start, names);
    hide TreeOk, Find, FindRemovable, Removal, Lead;
    if (f.Named? || f.Reached?) && f.path in nodes && nodes[f.path].DirNode? {
      RemovalIff(nodes, start, names, f.path);
    }
  }

  ghost predicate SteadyOf(nodes: Nodes, cwd: Path, text: string, q: Path)
  {
    Steady(nodes, StartOf(cwd, text), Split(text), q)
  }

  /**
   * Without faults, what is removed stays within what the path is about exactly when the path does not go on after a
   * link to a directory, or that directory is empty, or the first of its contents to go is the link itself.
   */
  lemma OutcomesStayWithinIff(nodes: Nodes, cwd: Path, path: string, after: Nodes, ok: bool)
    requires TreeOk(nodes) && Names(FindOf(nodes, cwd, path)) && ClearedAs(nodes, after, cwd, path, ok)
    ensures
      var f, s := FindOf(nodes, cwd, path), SubjectOf(nodes, cwd, path);
      && Names(s)
      && (RemovedWithin(nodes, after, s.path) <==>
          (GoesThroughLink(nodes, cwd, path) ==> First(nodes, f.path) == f.path || First(nodes, f.path) == s.path))
  {
    hide Split, Cleared, ThroughLink, Subject, Find, TreeOk, First;
    StaysWithinIff(nodes, StartOf(cwd, path), Split(path));
  }

  /**
   * At the limit a whole path loses its last character: what goes then lies within what the path is about exactly
   * when that character was a separator.
   */
  lemma LimitPathDeletesAnother(nodes: Nodes, cwd: Path, path: string)
    requires TreeOk(nodes) && |path| == PATH_MAX && AtLimit(nodes, FindOf(nodes, cwd, ShownPath(path))).1
    ensures
      var after, s := AtLimit(nodes, FindOf(nodes, cwd, ShownPath(path))).0, SubjectOf(nodes, cwd, path);
      Names(s) && (RemovedWithin(nodes, after, s.path) <==> path[PATH_MAX - 1] == '/')
  {
    var text, c := ShownPath(path), path[PATH_MAX - 1];
    assert path == text + [c];
    LongerPath(nodes, cwd, text, c);
  }

  lemma LongerPath(nodes: Nodes, cwd: Path, text: string, c: char)
    requires FindOf(nodes, cwd, text).Named? && FindOf(nodes, cwd, text).path in nodes
    ensures
      var p, s := FindOf(nodes, cwd, text).path, SubjectOf(nodes, cwd, text + [c]);
      Names(s) && (RemovedWithin(nodes, nodes - {p}, s.path) <==> c == '/')
  {
    var path, names := text + [c], Split(text);
    assert path[..|path| - 1] == text && StartOf(cwd, path) == StartOf(cwd, text);
    assert Split(path) == if c == '/' then names + [""] else names[..|names| - 1] + [names[|names| - 1] + [c]];
    hide Split, Subject, Find;
    if c == '/' {
      SubjectSlash(nodes, StartOf(cwd, text), names);
    } else {
      SubjectLonger(nodes, StartOf(cwd, text), names, c);
    }
  }

  lemma SubjectSlash(nodes: Nodes, start: Path, names: seq<string>)
    requires names != [] && Find(nodes, start, names).Named?
    ensures Subject(nodes, start, names + [""]) == Find(nodes, start, names)
  {
    assert (names + [""])[..|names|] == names;
    assert Base(names + [""]) == Base(names) == names;
  }

  lemma PlainLonger(name: string, c: char)
    requires Plain(name)
    ensures Plain(name + [c])
  {
    assert (name + [c])[..|name|] == name;
    assert ".."[..1] == "." && "."[..0] == "";
  }

  lemma SubjectLonger(nodes: Nodes, start: Path, names: seq<string>, c: char)
    requires names != [] && Find(nodes, start, names).Named?
    ensures
      var n := |names| - 1;
      var p, s := Find(nodes, start, names).path, Subject(nodes, start, names[..n] + [names[n] + [c]]);
      s.Named? && !(s.path <= p)
  {
    var n := |names| - 1;
    var longer := names[n] + [c];
    var names' := names[..n] + [longer];
    PlainLonger(names[n], c);
    assert names'[..n] == names[..n] && names'[n] == longer && Base(names') == names';
    var w := Lead(nodes, start, names[..n]);
    assert (w.path + [longer])[|w.path|] == longer && (w.path + [names[n]])[|w.path|] == names[n];
  }

  // ---------- a separator at the end ----------

  /**
   * A separator after any path to a link to a directory: the directory is emptied as far as the path lasts, all of it
   * if the path does not pass through it, and the deletion fails.
   */
  lemma LinkSlash(nodes: Nodes, cwd: Path, text: string, l: Path, t: Path)
    requires TreeOk(nodes) && FindOf(nodes, cwd, text) == Named(l) && l in nodes && nodes[l] == LinkNode(To(t))
    requires t in nodes && nodes[t].DirNode?
    ensures GoesThroughLink(nodes, cwd, text + "/") && SubjectOf(nodes, cwd, text + "/") == Named(l)
    ensures FindOf(nodes, cwd, text + "/") == Reached(t)
    ensures ClearedAs(nodes, PurgedOf(nodes, cwd, text + "/", t), cwd, text + "/", false)
    ensures SteadyOf(nodes, cwd, text + "/", t) ==> ClearedAs(nodes, WithoutBelow(nodes, t), cwd, text + "/", false)
  {
    hide Split, Cleared, ThroughLink, Subject, Find, TreeOk, Purged, Steady;
    ExtendText(cwd, text, "");
    assert text + "/" + "" == text + "/";
    SlashAfterLink(nodes, StartOf(cwd, text), Split(text));
  }

  /** A separator after any path to a directory makes no difference. */
  lemma DirectorySlash(nodes: Nodes, cwd: Path, text: string, d: Path, after: Nodes, ok: bool)
    requires FindOf(nodes, cwd, text) == Named(d) && d in nodes && nodes[d].DirNode?
    ensures ClearedAs(nodes, after, cwd, text + "/", ok) <==> ClearedAs(nodes, after, cwd, text, ok)
  {
    hide Split, ThroughLink, Subject, Cleared;
    ExtendText(cwd, text, "");
    assert text + "/" + "" == text + "/";
    SlashAfterDirectory(nodes, StartOf(cwd, text), Split(text));
  }
}
