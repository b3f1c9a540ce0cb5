/** What a directory entry is to be listed as, told by its inode and the links on the way, however it is found out. */
module ListingKinds {
  import opened FileSystems
  import opened ListingSpec

  /** A link that is to be followed: that was asked for, it is not being followed already, and it leads somewhere. */
  predicate Followed(fs: FileSystem, o: Options, chain: seq<Ino>, e: Dirent)
  {
    o.followLinks && IsLink(fs, e.ino) && e.ino !in chain && fs.inodes[e.ino].target.Found?
  }

  predicate LeadsToDirectory(fs: FileSystem, o: Options, chain: seq<Ino>, e: Dirent)
  {
    || IsDirectory(fs, Found(e.ino))
    || (Followed(fs, o, chain, e) && IsDirectory(fs, fs.inodes[e.ino].target))
  }

  predicate StandsForFile(fs: FileSystem, o: Options, chain: seq<Ino>, e: Dirent)
  {
    || (e.ino in fs.inodes && fs.inodes[e.ino].File?)
    || (Followed(fs, o, chain, e) && !IsDirectory(fs, fs.inodes[e.ino].target))
  }

  predicate StaysLink(fs: FileSystem, o: Options, chain: seq<Ino>, e: Dirent)
  {
    IsLink(fs, e.ino) && (!o.followLinks || e.ino in chain || fs.inodes[e.ino].target.Missing?)
  }

  /** Stat is asked about entries of unknown type and about links that may be followed. */
  predicate Unknowable(o: Options, e: Dirent)
  {
    e.statFails && (e.dtype.DtUnknown? || (e.dtype.DtLink? && o.followLinks))
  }

  /** The directory an entry leads to, and the links followed once inside. */
  function DirectoryOf(fs: FileSystem, e: Dirent): (d: Ino)
    requires e.ino in fs.inodes && !fs.inodes[e.ino].File?
    requires fs.inodes[e.ino].Symlink? ==> fs.inodes[e.ino].target.Found?
  {
    if fs.inodes[e.ino].Directory? then e.ino else fs.inodes[e.ino].target.ino
  }

  function ChainInto(fs: FileSystem, chain: seq<Ino>, e: Dirent): (c: seq<Ino>)
  {
    if IsLink(fs, e.ino) then [e.ino] + chain else chain
  }

  /** How an entry is listed; `ListDone` when it is not, as for dot entries. */
  function EntryKind(fs: FileSystem, o: Options, chain: seq<Ino>, e: Dirent): (kind: ListType)
  {
    if Unknowable(o, e) then ListError
    else if LeadsToDirectory(fs, o, chain, e) then
      if e.name == "." || e.name == ".." then ListDone else ListDirectory
    else if StaysLink(fs, o, chain, e) then ListLink
    else ListFile
  }

  /** An entry is exactly one of the three. */
  lemma OneOfThree(fs: FileSystem, o: Options, chain: seq<Ino>, e: Dirent)
    requires e.ino in fs.inodes
    ensures LeadsToDirectory(fs, o, chain, e) || StandsForFile(fs, o, chain, e) || StaysLink(fs, o, chain, e)
    ensures !(LeadsToDirectory(fs, o, chain, e) && StandsForFile(fs, o, chain, e))
    ensures !(LeadsToDirectory(fs, o, chain, e) && StaysLink(fs, o, chain, e))
    ensures !(StandsForFile(fs, o, chain, e) && StaysLink(fs, o, chain, e))
  {
  }

  /** The classification by type and by stat says exactly what the entry's inode makes of it. */
  lemma KindOfEntry(fs: FileSystem, o: Options, chain: seq<Ino>, e: Dirent)
    requires TypeAgrees(fs, e)
    ensures
      var k, knowable := Classify(fs, o, chain, e), !Unknowable(o, e);
      && (k == Reported(ListError) <==> !knowable)
      && (k == Reported(ListFile) <==> knowable && StandsForFile(fs, o, chain, e))
      && (k == Reported(ListLink) <==> knowable && StaysLink(fs, o, chain, e))
      && (k.Skipped? <==> knowable && LeadsToDirectory(fs, o, chain, e) && (e.name == "." || e.name == ".."))
      && (k.Subdirectory? <==> knowable && LeadsToDirectory(fs, o, chain, e) && e.name != "." && e.name != "..")
      && (k.Subdirectory? ==> k.dir == DirectoryOf(fs, e) && Extend(chain, k.link) == ChainInto(fs, chain, e))
  {
  }
}
