/** Loading of ELF segments: page arithmetic over 64-bit words, and the image that results. */
module ElfLoader {
  import opened Words

  type Byte = x: int | 0 <= x < 256

  const PF_X := 1
  const PF_W := 2
  const PF_R := 4

  /** Only loadable segments matter; all numbers are 64-bit words. */
  datatype ProgramHeader = ProgramHeader(
    load: bool, flags: nat, memoryOffset: nat, memorySize: nat, fileOffset: nat, alignment: nat)

  ghost predicate HeaderOk(h: ProgramHeader)
  {
    h.memoryOffset < WORD && h.memorySize < WORD && h.fileOffset < WORD
  }

  predicate PowerOfTwo(n: nat)
  {
    n == 1 || (n > 1 && n % 2 == 0 && PowerOfTwo(n / 2))
  }

  predicate Supported(flags: nat)
  {
    flags == PF_R + PF_W || flags == PF_R + PF_X || flags == PF_R
  }

  /** A segment loads when it is readable, and not writable and executable at once. */
  lemma SupportedIff(flags: nat)
    ensures Supported(flags) <==>
            flags < 8 && flags / PF_R % 2 == 1 && !(flags / PF_W % 2 == 1 && flags / PF_X % 2 == 1)
  {
  }

  function Power(k: nat): (n: nat)
  {
    if k == 0 then 1 else 2 * Power(k - 1)
  }

  lemma {:induction false} PowerOfTwoIff(n: nat)
    ensures PowerOfTwo(n) <==> exists k: nat :: n == Power(k)
  {
    if PowerOfTwo(n) && n > 1 {
      PowerOfTwoIff(n / 2);
      var k: nat :| n / 2 == Power(k);
      assert n == Power(k + 1);
    } else if n == 1 {
      assert n == Power(0);
    }
    if k: nat :| n == Power(k) {
      IsPower(k);
    }
  }

  lemma {:induction false} IsPower(k: nat)
    ensures PowerOfTwo(Power(k))
  {
    if k > 0 {
      IsPower(k - 1);
    }
  }

  /** A file as the kernel maps it: zeros after the end. */
  function FileByte(file: seq<Byte>, i: int): (b: Byte)
  {
    if 0 <= i < |file| then file[i] else 0
  }

  /** A stretch of the file. */
  function Piece(file: seq<Byte>, offset: nat, length: nat): (p: seq<Byte>)
    ensures |p| == length
    ensures forall k :: 0 <= k < length ==> p[k] == if offset + k < |file| then file[offset + k] else 0
  {
    if length == 0 then [] else Piece(file, offset, length - 1) + [FileByte(file, offset + length - 1)]
  }

  lemma PieceOfPiece(file: seq<Byte>, offset: nat, total: nat, at: nat, length: nat)
    requires at + length <= total
    ensures Piece(file, offset, total)[at..at + length] == Piece(file, offset + at, length)
  {
    var p, q := Piece(file, offset, total), Piece(file, offset + at, length);
    forall k | 0 <= k < length
      ensures p[at..at + length][k] == q[k]
    {
      assert p[at + k] == if offset + (at + k) < |file| then file[offset + (at + k)] else 0;
    }
  }

  // ---------- where a segment goes ----------

  function Adjustment(h: ProgramHeader, page: nat): (a: nat)
    requires page > 0
    ensures a <= h.memoryOffset && a < page
  {
    Remainder(h.memoryOffset, page);
    h.memoryOffset - RoundDown(h.memoryOffset, page)
  }

  /** Relative to the base of the image. */
  function MemoryStart(h: ProgramHeader, page: nat): (m: nat)
    requires page > 0
    ensures m % page == 0 && m <= h.memoryOffset < m + page
  {
    RoundDown(h.memoryOffset, page)
  }

  function FileStart(h: ProgramHeader, page: nat, dataOffset: nat): (f: nat)
    requires page > 0
  {
    Wrap(dataOffset + h.fileOffset - Adjustment(h, page))
  }

  function Length(h: ProgramHeader, page: nat): (n: nat)
    requires page > 0
  {
    Wrap(h.memorySize + Adjustment(h, page))
  }

  /** The end of the pages a segment occupies. */
  function MemoryEnd(h: ProgramHeader, page: nat): (e: nat)
    requires page > 0
  {
    MemoryStart(h, page) + RoundUp(Length(h, page), page)
  }

  ghost predicate NoOverflow(h: ProgramHeader, page: nat, dataOffset: nat)
  {
    h.memoryOffset + h.memorySize + 2 * page <= WORD && dataOffset + h.fileOffset < WORD
  }

  predicate Congruent(h: ProgramHeader, page: nat)
    requires page > 0
  {
    h.memoryOffset % page == h.fileOffset % page
  }

  /** Every mapping starts at a page in memory and in the file, and covers the segment's bytes. */
  lemma MappingIsAligned(h: ProgramHeader, page: nat, dataOffset: nat)
    requires page > 0 && dataOffset % page == 0 && Congruent(h, page) && NoOverflow(h, page, dataOffset)
    ensures MemoryStart(h, page) % page == 0 && FileStart(h, page, dataOffset) % page == 0
    ensures FileStart(h, page, dataOffset) == dataOffset + h.fileOffset - (h.memoryOffset - MemoryStart(h, page))
    ensures MemoryStart(h, page) + Length(h, page) == h.memoryOffset + h.memorySize <= MemoryEnd(h, page)
    ensures MemoryEnd(h, page) < h.memoryOffset + h.memorySize + page
  {
    var a := Adjustment(h, page);
    AdjustmentIsOffset(h, page);
    Remainder(h.fileOffset, page);
    Shift(h.fileOffset - a, dataOffset, page);
    assert h.fileOffset % page <= h.fileOffset by { RoundedDown(h.fileOffset, page); }
    RoundUpLeast(Length(h, page), page, 0);
  }

  lemma RoundedDown(x: nat, page: nat)
    requires page > 0
    ensures x % page <= x && RoundDown(x, page) == x - x % page
  {
  }

  lemma AdjustmentIsOffset(h: ProgramHeader, page: nat)
    requires page > 0
    ensures Adjustment(h, page) == h.memoryOffset % page
    ensures MemoryStart(h, page) == h.memoryOffset - h.memoryOffset % page
  {
  }

  // ---------- the reserved image ----------

  function Larger(a: nat, b: nat): (m: nat)
  {
    if a >= b then a else b
  }

  /** The end of the last segment, as the loader computes it. */
  function TotalEnd(headers: seq<ProgramHeader>): (t: nat)
    ensures t < WORD
  {
    if headers == [] then 0
    else
      var n, rest := |headers| - 1, TotalEnd(headers[..|headers| - 1]);
      if headers[n].load then Larger(Wrap(headers[n].memoryOffset + headers[n].memorySize), rest) else rest
  }

  lemma {:induction false} TotalCovers(headers: seq<ProgramHeader>, i: nat)
    requires i < |headers| && headers[i].load
    ensures Wrap(headers[i].memoryOffset + headers[i].memorySize) <= TotalEnd(headers)
  {
    if i < |headers| - 1 {
      TotalCovers(headers[..|headers| - 1], i);
    }
  }

  /** And no more than it must: some segment ends there. */
  lemma {:induction false} TotalIsReached(headers: seq<ProgramHeader>)
    ensures TotalEnd(headers) == 0 ||
            exists h :: h in headers && h.load && Wrap(h.memoryOffset + h.memorySize) == TotalEnd(headers)
  {
    if headers != [] {
      var rest := headers[..|headers| - 1];
      TotalIsReached(rest);
      assert forall h :: h in rest ==> h in headers;
      assert headers[|headers| - 1] in headers;
    }
  }

  /** A segment lies inside the reserved image exactly when the sum of its offset and size does not wrap around. */
  lemma InsideIff(headers: seq<ProgramHeader>, page: nat, i: nat)
    requires page > 0 && TotalEnd(headers) + page <= WORD
    requires i < |headers| && headers[i].load && HeaderOk(headers[i])
    ensures headers[i].memoryOffset + headers[i].memorySize <= RoundUp(TotalEnd(headers), page) <==>
            headers[i].memoryOffset + headers[i].memorySize < WORD
  {
    TotalCovers(headers, i);
    RoundUpLeast(TotalEnd(headers), page, 0);
  }

  /** So do the whole pages it is mapped to. */
  lemma PagesInside(headers: seq<ProgramHeader>, page: nat, dataOffset: nat, i: nat)
    requires page > 0 && dataOffset % page == 0 && TotalEnd(headers) + page <= WORD
    requires i < |headers| && headers[i].load && NoOverflow(headers[i], page, dataOffset) && Congruent(headers[i], page)
    ensures MemoryEnd(headers[i], page) <= RoundUp(TotalEnd(headers), page)
  {
    var h, total := headers[i], RoundUp(TotalEnd(headers), page);
    TotalCovers(headers, i);
    RoundUpLeast(TotalEnd(headers), page, 0);
    MappingIsAligned(h, page, dataOffset);
    Shift(total, MemoryStart(h, page), page);
    RoundUpLeast(Length(h, page), page, total - MemoryStart(h, page));
  }

  // ---------- loading ----------

  datatype LoadError =
    | NoError
    | DataOffsetNotAligned
    | AlignmentNotPowerOfTwo
    | CouldNotReserve
    | OffsetsNotCongruent
    | UnsupportedFlags
    | CouldNotMap

  ghost predicate PagesDisjoint(headers: seq<ProgramHeader>, page: nat)
    requires page > 0
  {
    forall i, j :: 0 <= i < j < |headers| && headers[i].load && headers[j].load ==>
      || MemoryEnd(headers[i], page) <= MemoryStart(headers[j], page)
      || MemoryEnd(headers[j], page) <= MemoryStart(headers[i], page)
  }

  ghost predicate AllFit(headers: seq<ProgramHeader>, page: nat, dataOffset: nat)
  {
    forall i :: 0 <= i < |headers| && headers[i].load ==> NoOverflow(headers[i], page, dataOffset)
  }

  predicate HeaderLoads(h: ProgramHeader, page: nat)
    requires page > 0
  {
    h.load ==> PowerOfTwo(h.alignment) && Congruent(h, page) && Supported(h.flags)
  }

  function MappedByte(file: seq<Byte>, fileStart: nat, memoryStart: nat, k: int): (b: Byte)
  {
    FileByte(file, fileStart + k - memoryStart)
  }

  /** The pages of a mapping. */
  function Mapped(memory: map<int, Byte>, file: seq<Byte>, fileStart: nat, memoryStart: nat,
                  length: nat): (m: map<int, Byte>)
  {
    memory + map k | memoryStart <= k < memoryStart + length :: MappedByte(file, fileStart, memoryStart, k)
  }

  /** The image after a segment is mapped to its whole pages. */
  function MappedBy(memory: map<int, Byte>, file: seq<Byte>, page: nat, dataOffset: nat,
                    h: ProgramHeader): (m: map<int, Byte>)
    requires page > 0
  {
    Mapped(memory, file, FileStart(h, page, dataOffset), MemoryStart(h, page), RoundUp(Length(h, page), page))
  }

  /** The image holds the bytes of a segment. */
  ghost predicate Holds(memory: map<int, Byte>, file: seq<Byte>, dataOffset: nat, h: ProgramHeader)
  {
    forall k :: h.memoryOffset <= k < h.memoryOffset + h.memorySize ==>
      && k in memory
      && var i := dataOffset + h.fileOffset + k - h.memoryOffset;
         memory[k] == if i < |file| then file[i] else 0
  }

  lemma MappedHolds(memory: map<int, Byte>, file: seq<Byte>, page: nat, dataOffset: nat, h: ProgramHeader)
    requires page > 0 && dataOffset % page == 0 && Congruent(h, page) && NoOverflow(h, page, dataOffset)
    ensures Holds(MappedBy(memory, file, page, dataOffset, h), file, dataOffset, h)
  {
    MappingIsAligned(h, page, dataOffset);
  }

  /** A mapping elsewhere leaves a segment alone. */
  lemma HoldsKept(memory: map<int, Byte>, file: seq<Byte>, page: nat, dataOffset: nat, h: ProgramHeader, fileStart: nat,
                  start: nat, length: nat)
    requires page > 0 && dataOffset % page == 0 && Congruent(h, page) && NoOverflow(h, page, dataOffset)
    requires Holds(memory, file, dataOffset, h)
    requires start + length <= MemoryStart(h, page) || MemoryEnd(h, page) <= start
    ensures Holds(Mapped(memory, file, fileStart, start, length), file, dataOffset, h)
  {
    MappingIsAligned(h, page, dataOffset);
  }

  // ---------- pieces of the file ----------

  function PieceOffset(page: nat, dataOffset: nat, start: nat): (o: nat)
    requires page > 0
  {
    RoundDown(Wrap(dataOffset + start), page)
  }

  function PieceLength(page: nat, dataOffset: nat, start: nat, length: nat): (n: nat)
    requires page > 0
  {
    Wrap(RoundUp(Wrap(dataOffset + start + length), page) - PieceOffset(page, dataOffset, start))
  }

  /** Where in the mapping the piece is said to start. */
  function PieceStart(page: nat, start: nat): (a: nat)
    requires page > 0
  {
    Remainder(start, page);
    start % page
  }

  lemma PieceOffsetIs(page: nat, dataOffset: nat, start: nat)
    requires page > 0
    ensures PieceOffset(page, dataOffset, start) == Wrap(dataOffset + start) - Wrap(dataOffset + start) % page
    ensures PieceStart(page, start) == start % page >= 0
  {
  }

  /** The mapping is made of whole pages and covers the piece. */
  lemma PieceIsCovered(page: nat, dataOffset: nat, start: nat, length: nat)
    requires page > 0 && dataOffset + start + length + page <= WORD
    ensures PieceOffset(page, dataOffset, start) % page == 0 && PieceLength(page, dataOffset, start, length) % page == 0
    ensures PieceOffset(page, dataOffset, start) <= dataOffset + start
    ensures dataOffset + start + length <=
            PieceOffset(page, dataOffset, start) + PieceLength(page, dataOffset, start, length)
  {
    RoundUpLeast(dataOffset + start + length, page, 0);
    Shift(RoundUp(dataOffset + start + length, page), PieceOffset(page, dataOffset, start), page);
  }

  /** The pointer is right exactly when the object starts at a page boundary of the file, which loading checks first. */
  lemma PieceStartIsRightIff(page: nat, dataOffset: nat, start: nat)
    requires page > 0 && dataOffset + start < WORD
    ensures PieceOffset(page, dataOffset, start) + PieceStart(page, start) == dataOffset + start <==>
            dataOffset % page == 0
  {
    SameOffset(dataOffset + start, start, page);
    RoundedDown(dataOffset + start, page);
  }

  class LoadedElf {
    const file: seq<Byte>
    const page: nat
    const dataOffset: nat
    const programTable: seq<ProgramHeader>
    // Relative to the base of the image.
    var memory: map<int, Byte>
    var totalMemory: nat
    var error: LoadError

    /** A header that cannot be loaded is in the table. */
    ghost predicate SomeAtFault()
      requires page > 0
      reads this
    {
      exists i :: 0 <= i < |programTable| && !HeaderLoads(programTable[i], page)
    }

    ghost predicate Valid()
      reads this
    {
      page > 0 && forall i :: 0 <= i < |programTable| ==> HeaderOk(programTable[i])
    }

    constructor (file: seq<Byte>, page: nat, dataOffset: nat, programTable: seq<ProgramHeader>)
      requires page > 0 && forall i :: 0 <= i < |programTable| ==> HeaderOk(programTable[i])
      ensures Valid() && error == NoError
      ensures this.file == file && this.page == page && this.dataOffset == dataOffset
      ensures this.programTable == programTable
    {
      this.file, this.page, this.dataOffset, this.programTable := file, page, dataOffset, programTable;
      memory, totalMemory, error := map[], 0, NoError;
    }

    /** The kernel maps whole pages, at page boundaries only, or refuses. */
    method Map(fileStart: nat, length: nat, memoryStart: nat) returns (ok: bool)
      requires page > 0
      modifies `memory
      ensures if ok then memory == Mapped(old(memory), file, fileStart, memoryStart, RoundUp(length, page))
              else memory == old(memory)
      ensures ok ==> fileStart % page == 0 && memoryStart % page == 0
    {
      ok := *;
      ok := ok && fileStart % page == 0 && memoryStart % page == 0;
      if ok {
        memory := Mapped(memory, file, fileStart, memoryStart, RoundUp(length, page));
      }
    }

    method Reserve() returns (ok: bool)
      requires Valid() && error == NoError
      modifies this
      ensures ok <==> error == NoError
      ensures ok ==> forall h :: h in programTable && h.load ==> PowerOfTwo(h.alignment)
      ensures !ok ==> error == CouldNotReserve || (error == AlignmentNotPowerOfTwo && SomeAtFault())
      ensures ok ==> totalMemory == RoundUp(TotalEnd(programTable), page)
    {
      var total := 0;
      for i := 0 to |programTable|
        invariant total == TotalEnd(programTable[..i]) && error == NoError
        invariant forall j :: 0 <= j < i && programTable[j].load ==> PowerOfTwo(programTable[j].alignment)
      {
        var h := programTable[i];
        assert programTable[..i + 1][..i] == programTable[..i];
        if h.load {
          total := Larger(Wrap(h.memoryOffset + h.memorySize), total);
          if !PowerOfTwo(h.alignment) {
            error := AlignmentNotPowerOfTwo;
            return false;
          }
        }
      }
      assert programTable[..|programTable|] == programTable;
      totalMemory := RoundUp(total, page);
      ok := *;
      if !ok {
        error := CouldNotReserve;
      }
    }

    method LoadSegment(i: nat) returns (ok: bool)
      requires Valid() && error == NoError && i < |programTable| && programTable[i].load
      modifies `memory, `error
      ensures if ok then error == NoError && Congruent(programTable[i], page) && Supported(programTable[i].flags)
              else error == CouldNotMap || (error.OffsetsNotCongruent? && !Congruent(programTable[i], page)) ||
                   (error.UnsupportedFlags? && !Supported(programTable[i].flags))
      ensures var h := programTable[i];
              ok ==> memory == MappedBy(old(memory), file, page, dataOffset, h)
    {
      hide Mapped, RoundUp, RoundDown, Adjustment, MemoryStart, PowerOfTwo, Supported;
      var h := programTable[i];
      if h.memoryOffset % page != h.fileOffset % page {
        error := OffsetsNotCongruent;
        return false;
      }
      AdjustmentIsOffset(h, page);
      var adjustment := h.memoryOffset % page;
      var memoryStart := h.memoryOffset - adjustment;
      var fileStart := Wrap(dataOffset + h.fileOffset - adjustment);
      var length := Wrap(h.memorySize + adjustment);
      if !Supported(h.flags) {
        error := UnsupportedFlags;
        return false;
      }
      ok := Map(fileStart, length, memoryStart);
      if !ok {
        error := CouldNotMap;
      }
    }

    /**
     * Loads every segment: when it succeeds each loaded byte is its file byte, and it fails only for a header at fault
     * or the kernel.
     */
    method LoadSegments() returns (ok: bool)
      requires Valid() && error == NoError && dataOffset % page == 0
      modifies this
      ensures ok <==> error == NoError
      ensures ok ==> forall i :: 0 <= i < |programTable| ==> HeaderLoads(programTable[i], page)
      ensures !ok ==> error == CouldNotReserve || error == CouldNotMap || SomeAtFault()
      ensures ok ==> totalMemory == RoundUp(TotalEnd(programTable), page)
      ensures ok && AllFit(programTable, page, dataOffset) && TotalEnd(programTable) + page <= WORD ==>
                forall i :: 0 <= i < |programTable| && programTable[i].load ==>
                  MemoryEnd(programTable[i], page) <= totalMemory
      ensures ok && AllFit(programTable, page, dataOffset) && PagesDisjoint(programTable, page) ==>
                forall i :: 0 <= i < |programTable| && programTable[i].load ==>
                  Holds(memory, file, dataOffset, programTable[i])
    {
      hide PowerOfTwo, Mapped, TotalEnd, MemoryEnd, MemoryStart, FileStart, RoundUp, Length, Holds, NoOverflow;
      ok := Reserve();
      if !ok {
        return;
      }
      for i := 0 to |programTable|
        invariant error == NoError && totalMemory == RoundUp(TotalEnd(programTable), page)
        invariant forall j :: 0 <= j < i ==> HeaderLoads(programTable[j], page)
        invariant AllFit(programTable, page, dataOffset) && PagesDisjoint(programTable, page) ==>
                    forall j :: 0 <= j < i && programTable[j].load ==> Holds(memory, file, dataOffset, programTable[j])
      {
        if programTable[i].load {
          ghost var before, h := memory, programTable[i];
          ok := LoadSegment(i);
          if !ok {
            return;
          }
          if AllFit(programTable, page, dataOffset) && PagesDisjoint(programTable, page) {
            MappedHolds(before, file, page, dataOffset, h);
            EarlierKept(before, i);
          }
        }
      }
      ok := true;
      if AllFit(programTable, page, dataOffset) && TotalEnd(programTable) + page <= WORD {
        AllPagesInside();
      }
    }

    lemma AllPagesInside()
      requires Valid() && dataOffset % page == 0
      requires forall i :: 0 <= i < |programTable| ==> HeaderLoads(programTable[i], page)
      requires AllFit(programTable, page, dataOffset) && TotalEnd(programTable) + page <= WORD
      ensures forall i :: 0 <= i < |programTable| && programTable[i].load ==>
                            MemoryEnd(programTable[i], page) <= RoundUp(TotalEnd(programTable), page)
    {
      forall i | 0 <= i < |programTable| && programTable[i].load
        ensures MemoryEnd(programTable[i], page) <= RoundUp(TotalEnd(programTable), page)
      {
        PagesInside(programTable, page, dataOffset, i);
      }
    }

    lemma EarlierKept(before: map<int, Byte>, i: nat)
      requires Valid() && dataOffset % page == 0 && i < |programTable| && programTable[i].load
      requires AllFit(programTable, page, dataOffset) && PagesDisjoint(programTable, page)
      requires forall j :: 0 <= j < i ==> HeaderLoads(programTable[j], page)
      requires forall j :: 0 <= j < i && programTable[j].load ==> Holds(before, file, dataOffset, programTable[j])
      ensures var h := programTable[i];
              var after := MappedBy(before, file, page, dataOffset, h);
              forall j :: 0 <= j < i && programTable[j].load ==> Holds(after, file, dataOffset, programTable[j])
    {
      var h := programTable[i];
      forall j | 0 <= j < i && programTable[j].load
        ensures Holds(MappedBy(before, file, page, dataOffset, h), file, dataOffset, programTable[j])
      {
        HoldsKept(before, file, page, dataOffset, programTable[j],
                  FileStart(h, page, dataOffset), MemoryStart(h, page), RoundUp(Length(h, page), page));
      }
    }

    /** Maps the pages around a piece of the object; the piece starts in the mapping where `at` says. */
    method MapFilePiece(start: nat, length: nat) returns (ok: bool, mapping: seq<Byte>, at: nat)
      requires Valid() && dataOffset % page == 0
      ensures ok && dataOffset + start + length + page <= WORD ==>
                at + length <= |mapping| && mapping[at..at + length] == Piece(file, dataOffset + start, length)
    {
      hide Piece, RoundUp, RoundDown, PieceOffset, PieceStart;
      PieceOffsetIs(page, dataOffset, start);
      var adjustment := Wrap(dataOffset + start) % page;
      var mappingOffset := Wrap(dataOffset + start) - adjustment;
      var mappingLength := Wrap(RoundUp(Wrap(dataOffset + start + length), page) - mappingOffset);
      ok := *;
      mapping := Piece(file, mappingOffset, mappingLength);
      at := start % page;
      if dataOffset + start + length + page <= WORD {
        PieceIsCovered(page, dataOffset, start, length);
        PieceStartIsRightIff(page, dataOffset, start);
        PieceOfPiece(file, mappingOffset, mappingLength, at, length);
      }
    }

    /** Loads the object: the first check is what the arithmetic of the pieces relies on. */
    method Load() returns (ok: bool)
      requires Valid() && error == NoError
      modifies this
      ensures ok <==> error == NoError
      ensures ok ==> dataOffset % page == 0
      ensures ok ==> forall i :: 0 <= i < |programTable| ==> HeaderLoads(programTable[i], page)
      ensures !ok ==> || (error == DataOffsetNotAligned && dataOffset % page != 0)
                      || error == CouldNotReserve || error == CouldNotMap || SomeAtFault()
      ensures ok ==> totalMemory == RoundUp(TotalEnd(programTable), page)
      ensures ok && AllFit(programTable, page, dataOffset) && TotalEnd(programTable) + page <= WORD ==>
                forall i :: 0 <= i < |programTable| && programTable[i].load ==>
                  MemoryEnd(programTable[i], page) <= totalMemory
      ensures ok && AllFit(programTable, page, dataOffset) && PagesDisjoint(programTable, page) ==>
                forall i :: 0 <= i < |programTable| && programTable[i].load ==>
                  Holds(memory, file, dataOffset, programTable[i])
    {
      hide PowerOfTwo, Mapped, TotalEnd, MemoryEnd, RoundUp, Holds, HeaderLoads, AllFit, PagesDisjoint;
      if dataOffset % page != 0 {
        error := DataOffsetNotAligned;
        return false;
      }
      ok := LoadSegments();
    }
  }
}
