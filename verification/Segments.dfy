/** Mapping the loadable segments of an ELF file: the memory image the segment loop leaves behind. */
module Segments {
  import opened Bytes
  import opened Memory

  /** A PT_LOAD program header. */
  datatype Phdr = Phdr(vaddr: nat, memsz: nat, filesz: nat, offset: nat, write: bool, execute: bool, align: nat)

  function Protection(ph: Phdr): Prot { Prot(true, ph.write, ph.execute) }

  function Adjusted(base: nat, ph: Phdr): nat { base + ph.vaddr }

  function LoadStart(base: nat, ph: Phdr): nat { Down(base + ph.vaddr) }

  function FileEnd(base: nat, ph: Phdr): nat { Up(base + ph.vaddr + ph.filesz) }

  function LoadEnd(base: nat, ph: Phdr): nat { Up(base + ph.vaddr + ph.memsz) }

  predicate Covers(base: nat, ph: Phdr, x: nat) { LoadStart(base, ph) <= x < LoadEnd(base, ph) }

  predicate Invalid(ph: Phdr) {
    ph.memsz < ph.filesz || ph.vaddr + ph.memsz >= WORD || ph.offset + ph.filesz >= WORD
  }

  /** The file offset of the first mapped page, computed modulo 2^64. */
  function PageOffset(base: nat, ph: Phdr): nat {
    (ph.offset - (Adjusted(base, ph) - LoadStart(base, ph))) % WORD
  }

  predicate HasFilePart(base: nat, ph: Phdr) { LoadStart(base, ph) < FileEnd(base, ph) }

  /** The end of the last file page is zeroed only for writable segments that extend beyond the file. */
  predicate ZeroesTail(ph: Phdr) { ph.write && ph.memsz > ph.filesz }

  /** The three mapper and memory calls of one round: the file pages, the rest of the last one, and
      the pages beyond. */
  function Assemble(m: Cells, file: seq<byte>, start: nat, dataEnd: nat, fileEnd: nat, end: nat, off: nat,
                    zeroTail: bool, prot: Prot): Cells
  {
    var m1 := if start < fileEnd then FilePages(m, file, start, dataEnd, fileEnd, off, zeroTail, prot) else m;
    if fileEnd < end then m1 + ZeroPart(fileEnd, end - fileEnd, prot) else m1
  }

  function FilePages(m: Cells, file: seq<byte>, start: nat, dataEnd: nat, fileEnd: nat, off: nat, zeroTail: bool,
                     prot: Prot): Cells
    requires start < fileEnd
  {
    var m1 := m + FilePart(start, fileEnd - start, file, off, prot);
    if zeroTail && dataEnd < fileEnd then Poke(m1, dataEnd, Zeros(fileEnd - dataEnd)) else m1
  }

  /** One round of the segment loop, on values. */
  function LoadSegment(m: Cells, file: seq<byte>, base: nat, ph: Phdr): (Outcome, Cells) {
    if Invalid(ph) then (InvalidProgramHeader, m)
    else if HasFilePart(base, ph) && PageOffset(base, ph) % PAGE != 0 then (MapError, m)
    else
      (Ok, Assemble(m, file, LoadStart(base, ph), Adjusted(base, ph) + ph.filesz, FileEnd(base, ph), LoadEnd(base, ph),
                    PageOffset(base, ph), ZeroesTail(ph), Protection(ph)))
  }

  lemma Bounds(base: nat, ph: Phdr)
    requires ph.filesz <= ph.memsz
    ensures LoadStart(base, ph) <= Adjusted(base, ph) < LoadStart(base, ph) + PAGE
    ensures Adjusted(base, ph) + ph.filesz <= FileEnd(base, ph) <= LoadEnd(base, ph)
    ensures LoadStart(base, ph) % PAGE == 0 && FileEnd(base, ph) % PAGE == 0 && LoadEnd(base, ph) % PAGE == 0
    ensures LoadStart(base, ph) <= FileEnd(base, ph) && Adjusted(base, ph) + ph.memsz <= LoadEnd(base, ph)
    ensures LoadEnd(base, ph) < Adjusted(base, ph) + ph.memsz + PAGE
  {
  }

  /** The same round, in place. */
  method MapSegment(space: Space, file: seq<byte>, base: nat, ph: Phdr) returns (r: Outcome)
    modifies space
    ensures (r, space.cells) == LoadSegment(old(space.cells), file, base, ph)
  {
    if ph.memsz < ph.filesz || ph.vaddr + ph.memsz >= WORD || ph.offset + ph.filesz >= WORD {
      return InvalidProgramHeader;
    }
    Bounds(base, ph);
    r := MapParts(space, file, LoadStart(base, ph), Adjusted(base, ph) + ph.filesz, FileEnd(base, ph),
                  LoadEnd(base, ph), PageOffset(base, ph), ZeroesTail(ph), Protection(ph));
  }

  method MapParts(space: Space, file: seq<byte>, start: nat, dataEnd: nat, fileEnd: nat, end: nat, off: nat,
                  zeroTail: bool, prot: Prot)
    returns (r: Outcome)
    requires start % PAGE == 0 && fileEnd % PAGE == 0 && end % PAGE == 0
    requires start <= dataEnd && (zeroTail ==> prot.write)
    modifies space
    ensures r == if start < fileEnd && off % PAGE != 0 then MapError else Ok
    ensures space.cells ==
      if r == Ok then Assemble(old(space.cells), file, start, dataEnd, fileEnd, end, off, zeroTail, prot)
      else old(space.cells)
  {
    r := Ok;
    if fileEnd > start {
      r := MapFilePages(space, file, start, dataEnd, fileEnd, off, zeroTail, prot);
      if r != Ok { return; }
    }
    if end > fileEnd {
      PagesBetween(fileEnd, end);
      r := space.MapZero(fileEnd, end - fileEnd, prot);
    }
  }

  lemma TailIsWritable(m: Cells, file: seq<byte>, start: nat, dataEnd: nat, fileEnd: nat, off: nat, prot: Prot)
    requires start <= dataEnd < fileEnd && prot.write
    ensures Writable(m + FilePart(start, fileEnd - start, file, off, prot), dataEnd, fileEnd - dataEnd)
  {
  }

  method MapFilePages(space: Space, file: seq<byte>, start: nat, dataEnd: nat, fileEnd: nat, off: nat, zeroTail: bool,
                      prot: Prot)
    returns (r: Outcome)
    requires start % PAGE == 0 && fileEnd % PAGE == 0 && start < fileEnd
    requires start <= dataEnd && (zeroTail ==> prot.write)
    modifies space
    ensures r == if off % PAGE != 0 then MapError else Ok
    ensures space.cells ==
      if r == Ok then FilePages(old(space.cells), file, start, dataEnd, fileEnd, off, zeroTail, prot)
      else old(space.cells)
  {
    PagesBetween(start, fileEnd);
    r := space.MapFile(start, fileEnd - start, file, off, prot);
    if r != Ok { return; }
    if zeroTail && fileEnd > dataEnd {
      TailIsWritable(old(space.cells), file, start, dataEnd, fileEnd, off, prot);
      r := space.Write(dataEnd, Zeros(fileEnd - dataEnd));
    }
  }

  // ----- the image of one segment -----

  /** What the loaded segment shows at address `x`. */
  function SegmentByte(file: seq<byte>, base: nat, ph: Phdr, x: nat): byte {
    if FileEnd(base, ph) <= x || (ZeroesTail(ph) && Adjusted(base, ph) + ph.filesz <= x) then 0
    else if ph.offset + x < Adjusted(base, ph) then 0
    else FileByte(file, ph.offset + x - Adjusted(base, ph))
  }

  function SegmentPart(file: seq<byte>, base: nat, ph: Phdr): Cells {
    map x: nat | LoadStart(base, ph) <= x < LoadEnd(base, ph) :: Cell(SegmentByte(file, base, ph, x), Protection(ph))
  }

  /** A file part is only accepted when its offset is co-aligned with its address; no wrap-around can
      pass for that. */
  lemma CoAligned(base: nat, ph: Phdr)
    requires !Invalid(ph) && PageOffset(base, ph) % PAGE == 0
    ensures ph.offset >= Adjusted(base, ph) - LoadStart(base, ph)
    ensures PageOffset(base, ph) == ph.offset - (Adjusted(base, ph) - LoadStart(base, ph))
  {
    Bounds(base, ph);
    WrapOffset(ph.offset, Adjusted(base, ph) - LoadStart(base, ph));
  }

  lemma WrapOffset(off: nat, d: nat)
    requires d < PAGE && off < WORD && ((off - d) % WORD) % PAGE == 0
    ensures d <= off && (off - d) % WORD == off - d
  {
    assert (off - d) % WORD == if off < d then WORD + off - d else off - d;
  }

  lemma AssembleIs(m: Cells, file: seq<byte>, start: nat, dataEnd: nat, fileEnd: nat, end: nat, off: nat,
                   zeroTail: bool, prot: Prot, x: nat)
    requires start <= fileEnd <= end && start <= dataEnd
    ensures var m' := Assemble(m, file, start, dataEnd, fileEnd, end, off, zeroTail, prot);
      && (x in m' <==> x in m || start <= x < end)
      && (start <= x < end ==>
            m'[x].prot == prot &&
            m'[x].value == if fileEnd <= x || (zeroTail && dataEnd <= x) then 0 else FileByte(file, off + (x - start)))
      && (x in m && !(start <= x < end) ==> m'[x] == m[x])
  {
  }

  lemma SegmentCell(m: Cells, file: seq<byte>, base: nat, ph: Phdr, x: nat)
    requires LoadSegment(m, file, base, ph).0 == Ok
    ensures var m' := LoadSegment(m, file, base, ph).1;
      && (x in m' <==> x in m || Covers(base, ph, x))
      && (Covers(base, ph, x) ==> m'[x] == Cell(SegmentByte(file, base, ph, x), Protection(ph)))
      && (x in m && !Covers(base, ph, x) ==> m'[x] == m[x])
  {
    Bounds(base, ph);
    var start, fileEnd := LoadStart(base, ph), FileEnd(base, ph);
    AssembleIs(m, file, start, Adjusted(base, ph) + ph.filesz, fileEnd, LoadEnd(base, ph),
               PageOffset(base, ph), ZeroesTail(ph), Protection(ph), x);
    if start <= x < fileEnd {
      CoAligned(base, ph);
      assert PageOffset(base, ph) + (x - start) == ph.offset + x - Adjusted(base, ph);
    }
  }

  /** A round that succeeds replaces exactly the pages of the segment by its image. */
  lemma SegmentImage(m: Cells, file: seq<byte>, base: nat, ph: Phdr)
    requires LoadSegment(m, file, base, ph).0 == Ok
    ensures LoadSegment(m, file, base, ph).1 == m + SegmentPart(file, base, ph)
  {
    var m', m'' := LoadSegment(m, file, base, ph).1, m + SegmentPart(file, base, ph);
    forall x: nat ensures (x in m' <==> x in m'') && (x in m' ==> m'[x] == m''[x]) {
      SegmentCell(m, file, base, ph, x);
    }
  }

  // ----- the whole loop -----

  function LoadAll(m: Cells, file: seq<byte>, base: nat, phs: seq<Phdr>): (Outcome, Cells)
    decreases |phs|
  {
    if phs == [] then (Ok, m)
    else
      var (r, m1) := LoadSegment(m, file, base, phs[0]);
      if r != Ok then (r, m1) else LoadAll(m1, file, base, phs[1..])
  }

  /** The highest page-rounded segment end. */
  function Brk(base: nat, phs: seq<Phdr>): nat {
    if phs == [] then 0
    else
      var b, end := Brk(base, phs[..|phs| - 1]), LoadEnd(base, phs[|phs| - 1]);
      if b < end then end else b
  }

  predicate HoldsHeaders(ph: Phdr, phoff: nat) { ph.offset <= phoff < ph.offset + ph.filesz }

  /** The mapped address of the program headers: the last segment that holds them counts. */
  function PhdrsAddr(base: nat, phs: seq<Phdr>, phoff: nat): nat {
    if phs == [] then 0
    else
      var ph := phs[|phs| - 1];
      if HoldsHeaders(ph, phoff) then Adjusted(base, ph) + (phoff - ph.offset)
      else PhdrsAddr(base, phs[..|phs| - 1], phoff)
  }

  /** The segment loop of `load`, in place. */
  method MapSegments(space: Space, file: seq<byte>, base: nat, phs: seq<Phdr>, phoff: nat)
    returns (r: Outcome, brk: nat, phdrsAddr: nat)
    modifies space
    ensures (r, space.cells) == LoadAll(old(space.cells), file, base, phs)
    ensures r == Ok ==> brk == Brk(base, phs) && phdrsAddr == PhdrsAddr(base, phs, phoff)
  {
    r, brk, phdrsAddr := Ok, 0, 0;
    var i := 0;
    while i < |phs|
      invariant 0 <= i <= |phs| && r == Ok
      invariant LoadAll(old(space.cells), file, base, phs) == LoadAll(space.cells, file, base, phs[i..])
      invariant brk == Brk(base, phs[..i]) && phdrsAddr == PhdrsAddr(base, phs[..i], phoff)
    {
      var ph := phs[i];
      assert phs[i..][1..] == phs[i + 1..] && phs[..i + 1][..i] == phs[..i];
      r := MapSegment(space, file, base, ph);
      if r != Ok { return; }
      if brk < LoadEnd(base, ph) { brk := LoadEnd(base, ph); }
      if ph.offset <= phoff && phoff < ph.offset + ph.filesz {
        phdrsAddr := base + ph.vaddr + (phoff - ph.offset);
      }
      i := i + 1;
    }
    assert phs[i..] == [] && phs[..i] == phs;
  }

  ghost predicate PagesApart(base: nat, phs: seq<Phdr>) {
    forall i, j, x: nat :: 0 <= i < j < |phs| ==> !(Covers(base, phs[i], x) && Covers(base, phs[j], x))
  }

  ghost predicate Untouched(base: nat, phs: seq<Phdr>, x: nat) {
    forall i :: 0 <= i < |phs| ==> !Covers(base, phs[i], x)
  }

  /** The loop changes nothing outside the pages of the segments. */
  lemma {:induction false} Elsewhere(m: Cells, file: seq<byte>, base: nat, phs: seq<Phdr>, x: nat)
    requires LoadAll(m, file, base, phs).0 == Ok && Untouched(base, phs, x)
    ensures var m' := LoadAll(m, file, base, phs).1; (x in m' <==> x in m) && (x in m ==> m'[x] == m[x])
    decreases |phs|
  {
    if phs != [] {
      SegmentCell(m, file, base, phs[0], x);
      assert !Covers(base, phs[0], x);
      forall k | 0 <= k < |phs[1..]| ensures !Covers(base, phs[1..][k], x) { assert phs[1..][k] == phs[k + 1]; }
      Elsewhere(LoadSegment(m, file, base, phs[0]).1, file, base, phs[1..], x);
    }
  }

  /** After the loop, every page of every segment shows that segment's image. */
  lemma {:induction false} MemoryImage(m: Cells, file: seq<byte>, base: nat, phs: seq<Phdr>, i: nat, x: nat)
    requires PagesApart(base, phs) && LoadAll(m, file, base, phs).0 == Ok && i < |phs| && Covers(base, phs[i], x)
    ensures var m' := LoadAll(m, file, base, phs).1;
      x in m' && m'[x] == Cell(SegmentByte(file, base, phs[i], x), Protection(phs[i]))
    decreases |phs|
  {
    var m1 := LoadSegment(m, file, base, phs[0]).1;
    if i == 0 {
      SegmentCell(m, file, base, phs[0], x);
      forall k | 0 <= k < |phs[1..]| ensures !Covers(base, phs[1..][k], x) { assert phs[1..][k] == phs[k + 1]; }
      Elsewhere(m1, file, base, phs[1..], x);
    } else {
      RestApart(base, phs);
      assert phs[1..][i - 1] == phs[i];
      MemoryImage(m1, file, base, phs[1..], i - 1, x);
    }
  }

  lemma RestApart(base: nat, phs: seq<Phdr>)
    requires phs != [] && PagesApart(base, phs)
    ensures PagesApart(base, phs[1..])
  {
    var rest := phs[1..];
    forall i, j, x: nat | 0 <= i < j < |rest| ensures !(Covers(base, rest[i], x) && Covers(base, rest[j], x)) {
      assert rest[i] == phs[i + 1] && rest[j] == phs[j + 1];
    }
  }

  predicate Loadable(base: nat, ph: Phdr) {
    !Invalid(ph) && (HasFilePart(base, ph) ==> PageOffset(base, ph) % PAGE == 0)
  }

  /** The loop succeeds exactly when every segment passes the header checks and the mapper takes its file
      part, whatever was mapped before. */
  lemma {:induction false} LoadSucceeds(m: Cells, file: seq<byte>, base: nat, phs: seq<Phdr>)
    ensures LoadAll(m, file, base, phs).0 == Ok <==> forall i :: 0 <= i < |phs| ==> Loadable(base, phs[i])
    decreases |phs|
  {
    if phs != [] {
      var rest := phs[1..];
      LoadSucceeds(LoadSegment(m, file, base, phs[0]).1, file, base, rest);
      forall i | 0 <= i < |rest| ensures rest[i] == phs[i + 1] {}
      if LoadAll(m, file, base, phs).0 == Ok {
        forall i | 0 <= i < |phs| ensures Loadable(base, phs[i]) {
          if i > 0 { assert Loadable(base, rest[i - 1]); }
        }
      }
    }
  }

  /** A header fit to load: it passes the checks, and a file part has its offset co-aligned with its
      address. */
  predicate WellFormed(ph: Phdr) {
    !Invalid(ph) && (Down(ph.vaddr) < Up(ph.vaddr + ph.filesz) ==> ph.offset % PAGE == ph.vaddr % PAGE)
  }

  lemma LoadableIs(base: nat, ph: Phdr)
    requires base % PAGE == 0
    ensures Loadable(base, ph) <==> WellFormed(ph)
  {
    Shifted(base, ph.vaddr);
    Shifted(base, ph.vaddr + ph.filesz);
    if !Invalid(ph) { OffsetPage(ph.offset, ph.vaddr); }
  }

  lemma OffsetPage(off: nat, vaddr: nat)
    requires off < WORD
    ensures (off - (vaddr - Down(vaddr))) % WORD % PAGE == 0 <==> off % PAGE == vaddr % PAGE
  {
    var d := vaddr - Down(vaddr);
    assert d == vaddr % PAGE;
    WrappedPage(off, d);
  }

  lemma WrappedPage(off: nat, d: nat)
    requires d < PAGE && off < WORD
    ensures (off - d) % WORD % PAGE == 0 <==> off % PAGE == d
  {
    assert (off - d) % WORD == if off < d then WORD + off - d else off - d;
  }

  /** What one round answers, with the limits written out, and that a refusal maps nothing. */
  lemma SegmentOutcome(m: Cells, file: seq<byte>, base: nat, ph: Phdr)
    requires base % 4096 == 0
    ensures var (r, m') := LoadSegment(m, file, base, ph);
      && r == (if ph.memsz < ph.filesz || ph.vaddr + ph.memsz > 0xffff_ffff_ffff_ffff
                  || ph.offset + ph.filesz > 0xffff_ffff_ffff_ffff then InvalidProgramHeader
               else if (ph.filesz > 0 || ph.vaddr % 4096 != 0) && ph.offset % 4096 != ph.vaddr % 4096 then MapError
               else Ok)
      && (r != Ok ==> m' == m)
  {
    LoadableIs(base, ph);
    FilePartIs(ph.vaddr, ph.filesz);
  }

  lemma FilePartIs(vaddr: nat, filesz: nat)
    ensures Down(vaddr) < Up(vaddr + filesz) <==> filesz > 0 || vaddr % 4096 != 0
  {
  }

  /** At a page-aligned base the loop succeeds exactly when every header is well formed. */
  lemma LoadsIff(m: Cells, file: seq<byte>, base: nat, phs: seq<Phdr>)
    requires base % PAGE == 0
    ensures LoadAll(m, file, base, phs).0 == Ok <==> forall i :: 0 <= i < |phs| ==> WellFormed(phs[i])
  {
    LoadSucceeds(m, file, base, phs);
    forall i | 0 <= i < |phs| ensures Loadable(base, phs[i]) <==> WellFormed(phs[i]) { LoadableIs(base, phs[i]); }
  }

  lemma AllValid(m: Cells, file: seq<byte>, base: nat, phs: seq<Phdr>, i: nat)
    requires LoadAll(m, file, base, phs).0 == Ok && i < |phs|
    ensures Loadable(base, phs[i])
  {
    LoadSucceeds(m, file, base, phs);
  }

  /** What a loaded segment shows at any address of its pages: the file's own bytes; in front of them what
      precedes them in the file; behind them zeros when the segment is writable and larger than its file
      part, and otherwise what follows in the file up to the end of the last file page; zeros on the pages
      beyond. */
  ghost predicate Shown(file: seq<byte>, base: nat, ph: Phdr, x: nat, cell: Cell) {
    var data := base + ph.vaddr;
    var tail := data + ph.filesz;
    var zeroed := ph.write && ph.memsz > ph.filesz;
    && cell.prot == Prot(true, ph.write, ph.execute)
    && (x < data ==> data - x <= ph.offset && cell.value == FileByte(file, ph.offset - (data - x)))
    && (data <= x < tail ==> cell.value == FileByte(file, ph.offset + (x - data)))
    && (tail <= x < Up(tail) ==> cell.value == if zeroed then 0 else FileByte(file, ph.offset + (x - data)))
    && (Up(tail) <= x ==> cell.value == 0)
  }

  /** After the loop, every byte of every page of every segment is there as it should be. */
  lemma SegmentBytes(m: Cells, file: seq<byte>, base: nat, phs: seq<Phdr>, m': Cells, i: nat, x: nat)
    requires PagesApart(base, phs) && LoadAll(m, file, base, phs) == (Ok, m') && i < |phs|
    requires Down(base + phs[i].vaddr) <= x < Up(base + phs[i].vaddr + phs[i].memsz)
    ensures x in m' && Shown(file, base, phs[i], x, m'[x])
  {
    var cell := Cell(SegmentByte(file, base, phs[i], x), Protection(phs[i]));
    assert Shown(file, base, phs[i], x, cell) by { SegmentShown(m, file, base, phs, i, x); }
    assert x in m' && m'[x] == cell by { MemoryImage(m, file, base, phs, i, x); }
  }

  /** So well-formed headers on pages apart load, at any page-aligned base, to just that image. */
  lemma LoadedImage(m: Cells, file: seq<byte>, base: nat, phs: seq<Phdr>, i: nat, x: nat)
    requires base % PAGE == 0 && PagesApart(base, phs) && forall k :: 0 <= k < |phs| ==> WellFormed(phs[k])
    requires i < |phs| && Down(base + phs[i].vaddr) <= x < Up(base + phs[i].vaddr + phs[i].memsz)
    ensures var (r, m') := LoadAll(m, file, base, phs);
      r == Ok && x in m' && Shown(file, base, phs[i], x, m'[x])
  {
    LoadsIff(m, file, base, phs);
    SegmentBytes(m, file, base, phs, LoadAll(m, file, base, phs).1, i, x);
  }

  lemma SegmentShown(m: Cells, file: seq<byte>, base: nat, phs: seq<Phdr>, i: nat, x: nat)
    requires LoadAll(m, file, base, phs).0 == Ok && i < |phs| && LoadStart(base, phs[i]) <= x
    ensures Shown(file, base, phs[i], x, Cell(SegmentByte(file, base, phs[i], x), Protection(phs[i])))
  {
    AllValid(m, file, base, phs, i);
    ByteCases(file, base, phs[i], x);
  }

  lemma ByteCases(file: seq<byte>, base: nat, ph: Phdr, x: nat)
    requires !Invalid(ph) && LoadStart(base, ph) <= x && (HasFilePart(base, ph) ==> PageOffset(base, ph) % PAGE == 0)
    ensures Shown(file, base, ph, x, Cell(SegmentByte(file, base, ph, x), Protection(ph)))
  {
    PageBounds(base + ph.vaddr + ph.filesz);
    if x < base + ph.vaddr { CoAligned(base, ph); }
  }

  /** AT_PHDR: the reported address shows the program headers of the file, as far as the segment that
      holds them goes. */
  lemma {:induction false} HeadersMapped(base: nat, phs: seq<Phdr>, phoff: nat) returns (i: nat)
    requires exists k :: 0 <= k < |phs| && HoldsHeaders(phs[k], phoff)
    ensures i < |phs| && HoldsHeaders(phs[i], phoff)
    ensures PhdrsAddr(base, phs, phoff) == Adjusted(base, phs[i]) + (phoff - phs[i].offset)
    ensures forall j :: i < j < |phs| ==> !HoldsHeaders(phs[j], phoff)
  {
    i := |phs| - 1;
    if !HoldsHeaders(phs[i], phoff) {
      assert exists k :: 0 <= k < |phs[..i]| && HoldsHeaders(phs[..i][k], phoff) by {
        var k :| 0 <= k < |phs| && HoldsHeaders(phs[k], phoff);
        assert phs[..i][k] == phs[k];
      }
      i := HeadersMapped(base, phs[..i], phoff);
    }
  }

  /** Without a segment that holds them the address is 0. */
  lemma {:induction false} NoHeaders(base: nat, phs: seq<Phdr>, phoff: nat)
    requires forall k :: 0 <= k < |phs| ==> !(phs[k].offset <= phoff < phs[k].offset + phs[k].filesz)
    ensures PhdrsAddr(base, phs, phoff) == 0
  {
    if phs != [] { NoHeaders(base, phs[..|phs| - 1], phoff); }
  }

  lemma HeaderBytes(m: Cells, file: seq<byte>, base: nat, phs: seq<Phdr>, phoff: nat, k: nat) returns (i: nat)
    requires PagesApart(base, phs) && LoadAll(m, file, base, phs).0 == Ok
    requires exists k :: 0 <= k < |phs| && HoldsHeaders(phs[k], phoff)
    ensures i < |phs| && HoldsHeaders(phs[i], phoff)
    ensures phoff + k < phs[i].offset + phs[i].filesz ==>
      var a, m' := PhdrsAddr(base, phs, phoff) + k, LoadAll(m, file, base, phs).1;
      a in m' && m'[a].value == FileByte(file, phoff + k)
  {
    i := HeadersMapped(base, phs, phoff);
    var d := phoff - phs[i].offset + k;
    if d < phs[i].filesz {
      DataByte(m, file, base, phs, LoadAll(m, file, base, phs).1, i, d);
      assert PhdrsAddr(base, phs, phoff) + k == Adjusted(base, phs[i]) + d && phs[i].offset + d == phoff + k;
    }
  }

  /** Every file-backed byte is the file's. */
  lemma DataByte(m: Cells, file: seq<byte>, base: nat, phs: seq<Phdr>, m': Cells, i: nat, d: nat)
    requires PagesApart(base, phs) && LoadAll(m, file, base, phs) == (Ok, m') && i < |phs| && d < phs[i].filesz
    ensures var a := Adjusted(base, phs[i]) + d;
      a in m' && m'[a] == Cell(FileByte(file, phs[i].offset + d), Protection(phs[i]))
  {
    DataSpan(m, file, base, phs, i, d);
    SegmentBytes(m, file, base, phs, m', i, Adjusted(base, phs[i]) + d);
    DataShown(file, base, phs[i], d, m'[Adjusted(base, phs[i]) + d]);
  }

  lemma DataSpan(m: Cells, file: seq<byte>, base: nat, phs: seq<Phdr>, i: nat, d: nat)
    requires LoadAll(m, file, base, phs).0 == Ok && i < |phs| && d < phs[i].filesz
    ensures Down(base + phs[i].vaddr) <= Adjusted(base, phs[i]) + d < Up(base + phs[i].vaddr + phs[i].memsz)
  {
    AllValid(m, file, base, phs, i);
    DataInPages(base, phs[i], d);
  }

  lemma DataInPages(base: nat, ph: Phdr, d: nat)
    requires d < ph.filesz <= ph.memsz
    ensures Down(base + ph.vaddr) <= Adjusted(base, ph) + d < Up(base + ph.vaddr + ph.memsz)
  {
    PageBounds(base + ph.vaddr);
    PageBounds(base + ph.vaddr + ph.memsz);
  }

  lemma DataShown(file: seq<byte>, base: nat, ph: Phdr, d: nat, cell: Cell)
    requires d < ph.filesz && Shown(file, base, ph, Adjusted(base, ph) + d, cell)
    ensures cell == Cell(FileByte(file, ph.offset + d), Protection(ph))
  {
  }

  /** The program break is page-aligned and at or above every mapped byte of every segment. */
  lemma {:induction false} BrkIsAbove(base: nat, phs: seq<Phdr>)
    ensures Brk(base, phs) % PAGE == 0
    ensures forall i :: 0 <= i < |phs| ==> LoadEnd(base, phs[i]) <= Brk(base, phs)
    ensures phs != [] ==> exists i :: 0 <= i < |phs| && Brk(base, phs) == LoadEnd(base, phs[i])
  {
    if phs != [] {
      var n := |phs| - 1;
      var rest := phs[..n];
      BrkIsAbove(base, rest);
      PageBounds(base + phs[n].vaddr + phs[n].memsz);
      forall i | 0 <= i < n ensures phs[i] == rest[i] {}
      if Brk(base, phs) != LoadEnd(base, phs[n]) {
        var i :| 0 <= i < |rest| && Brk(base, rest) == LoadEnd(base, rest[i]);
        assert Brk(base, phs) == LoadEnd(base, phs[i]);
      }
    }
  }
}
