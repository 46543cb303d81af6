/** Around the segment loop: the span to reserve for a position-independent file, the trampoline
    appended by the rewriter, and whether everything stays inside the reservation. */
module Loader {
  import opened Bytes
  import opened Memory
  import opened Segments
  import Relocations
  import Reserve

  datatype Trampoline = Trampoline(vaddr: nat, offset: nat, size: nat, entry: nat)

  // ----- the trampoline footer -----

  /** "LITEBOX0" */
  const MAGIC: seq<byte> := [76, 73, 84, 69, 66, 79, 88, 48]

  datatype Parsed = Nothing | Found(t: Trampoline) | UnpatchedBinary | BadVersion | BadTrampoline

  function Footer(offset: nat, vaddr: nat, size: nat): (f: seq<byte>)
    ensures |f| == 32
  {
    MAGIC + ToLe(offset, 8) + ToLe(vaddr, 8) + ToLe(size, 8)
  }

  /** parse_trampoline of the loader. Offset and size are added modulo 2^64. */
  function ParseTrampoline(file: seq<byte>, entry: nat): Parsed {
    if entry == 0 then Nothing
    else if |file| < 32 then UnpatchedBinary
    else
      var h := file[|file| - 32..];
      if h[..8] != MAGIC then if h[..7] == MAGIC[..7] then BadVersion else UnpatchedBinary
      else
        var offset, vaddr, size := FromLe(h[8..16]), FromLe(h[16..24]), FromLe(h[24..32]);
        if size == 0 then Nothing
        else if offset % PAGE != 0 || vaddr % PAGE != 0 || (offset + size) % WORD != |file| - 32 then BadTrampoline
        else Found(Trampoline(vaddr, offset, size, entry))
  }

  /** append_trampoline_footer of the rewriter: padding to a page, the code, the footer. */
  function AppendFooter(elf: seq<byte>, code: seq<byte>, vaddr: nat): seq<byte> {
    elf + Zeros(Up(|elf|) - |elf|) + code + Footer(Up(|elf|), vaddr, |code|)
  }

  /** is_already_hooked of the rewriter: the same footer, with a checked addition. */
  predicate IsAlreadyHooked(file: seq<byte>) {
    |file| >= 32 &&
    var h := file[|file| - 32..];
    h[..8] == MAGIC &&
    var offset, vaddr, size := FromLe(h[8..16]), FromLe(h[16..24]), FromLe(h[24..32]);
    size == 0 || (offset % PAGE == 0 && vaddr % PAGE == 0 && offset + size < WORD && offset + size == |file| - 32)
  }

  lemma FooterFields(offset: nat, vaddr: nat, size: nat)
    requires offset < WORD && vaddr < WORD && size < WORD
    ensures var h := Footer(offset, vaddr, size);
      h[..8] == MAGIC && FromLe(h[8..16]) == offset && FromLe(h[16..24]) == vaddr && FromLe(h[24..32]) == size
  {
    var h := Footer(offset, vaddr, size);
    WordLimit();
    LeRoundTrip(offset, 8);
    LeRoundTrip(vaddr, 8);
    LeRoundTrip(size, 8);
    Fields(MAGIC, ToLe(offset, 8), ToLe(vaddr, 8), ToLe(size, 8));
  }

  lemma Fields(a: seq<byte>, b: seq<byte>, c: seq<byte>, d: seq<byte>)
    requires |a| == |b| == |c| == |d| == 8
    ensures var h := a + b + c + d; h[..8] == a && h[8..16] == b && h[16..24] == c && h[24..32] == d
  {
  }

  /** The magic spells LITEBOX0. */
  lemma MagicSpells(i: nat)
    requires i < 8
    ensures |MAGIC| == 8 && MAGIC[i] as char == "LITEBOX0"[i]
  {
  }

  /** Which refusal a file gets: shorter than a footer or without the first seven letters it is unpatched, with
      another eighth it has another version. */
  lemma Refusals(file: seq<byte>, entry: nat)
    requires entry != 0
    ensures |file| < 32 ==> ParseTrampoline(file, entry) == UnpatchedBinary
    ensures |file| >= 32 ==>
      var h := file[|file| - 32..];
      && (h[..7] != [76, 73, 84, 69, 66, 79, 88] ==> ParseTrampoline(file, entry) == UnpatchedBinary)
      && (h[..7] == [76, 73, 84, 69, 66, 79, 88] && h[7] != 48 ==> ParseTrampoline(file, entry) == BadVersion)
      && (h[..7] == [76, 73, 84, 69, 66, 79, 88] && h[7] == 48 ==>
            ParseTrampoline(file, entry).Nothing? || ParseTrampoline(file, entry).Found? ||
              ParseTrampoline(file, entry).BadTrampoline?)
    ensures ParseTrampoline(file, 0) == Nothing
  {
    if |file| >= 32 {
      var h := file[|file| - 32..];
      assert h[..8] == h[..7] + [h[7]];
      assert MAGIC == MAGIC[..7] + [48] && MAGIC[..7] == [76, 73, 84, 69, 66, 79, 88];
      if h[..8] == MAGIC { assert h[..8][..7] == h[..7] && h[..8][7] == 48; }
    }
  }

  /** What the rewriter appends is what the loader finds: the code, page-aligned in the file, at the
      address chosen for it. */
  lemma FooterRoundTrip(elf: seq<byte>, code: seq<byte>, vaddr: nat, entry: nat)
    requires code != [] && vaddr % PAGE == 0 && vaddr < WORD && entry != 0
    requires |AppendFooter(elf, code, vaddr)| < WORD
    ensures ParseTrampoline(AppendFooter(elf, code, vaddr), entry) == Found(Trampoline(vaddr, Up(|elf|), |code|, entry))
    ensures AppendFooter(elf, code, vaddr)[Up(|elf|)..Up(|elf|) + |code|] == code
    ensures AppendFooter(elf, code, vaddr)[..|elf|] == elf
    ensures IsAlreadyHooked(AppendFooter(elf, code, vaddr))
  {
    var file := AppendFooter(elf, code, vaddr);
    PageBounds(|elf|);
    Parts(elf + Zeros(Up(|elf|) - |elf|), code, Footer(Up(|elf|), vaddr, |code|));
    FooterParses(file, Up(|elf|), vaddr, |code|, entry);
  }

  lemma FooterParses(file: seq<byte>, offset: nat, vaddr: nat, size: nat, entry: nat)
    requires offset + size + 32 == |file| < WORD && size > 0 && vaddr < WORD && entry != 0
    requires offset % PAGE == 0 && vaddr % PAGE == 0 && file[|file| - 32..] == Footer(offset, vaddr, size)
    ensures ParseTrampoline(file, entry) == Found(Trampoline(vaddr, offset, size, entry)) && IsAlreadyHooked(file)
  {
    FooterFields(offset, vaddr, size);
    FieldsParse(file, file[|file| - 32..], offset, vaddr, size, entry);
  }

  lemma FieldsParse(file: seq<byte>, h: seq<byte>, offset: nat, vaddr: nat, size: nat, entry: nat)
    requires offset + size + 32 == |file| < WORD && size > 0 && entry != 0 && offset % PAGE == 0 && vaddr % PAGE == 0
    requires h == file[|file| - 32..] && h[..8] == MAGIC
    requires FromLe(h[8..16]) == offset && FromLe(h[16..24]) == vaddr && FromLe(h[24..32]) == size
    ensures ParseTrampoline(file, entry) == Found(Trampoline(vaddr, offset, size, entry)) && IsAlreadyHooked(file)
  {
    SumFits(offset + size);
  }

  lemma Parts(a: seq<byte>, b: seq<byte>, c: seq<byte>)
    requires |c| == 32
    ensures var f := a + b + c; |f| - 32 == |a| + |b| && f[|f| - 32..] == c && f[|a|..|a| + |b|] == b
  {
  }

  lemma SumFits(n: nat)
    ensures n < WORD ==> n % WORD == n
  {
  }

  /** A binary in which the rewriter found nothing to patch carries an empty footer and no trampoline. */
  lemma SentinelRoundTrip(elf: seq<byte>, entry: nat)
    ensures ParseTrampoline(elf + Footer(0, 0, 0), entry) == Nothing && IsAlreadyHooked(elf + Footer(0, 0, 0))
  {
    FooterFields(0, 0, 0);
    var file := elf + Footer(0, 0, 0);
    assert file[|file| - 32..] == Footer(0, 0, 0);
  }

  predicate FooterWraps(file: seq<byte>)
    requires |file| >= 32
  {
    var h := file[|file| - 32..];
    FromLe(h[24..32]) != 0 && FromLe(h[8..16]) + FromLe(h[24..32]) >= WORD
  }

  /** The loader accepts every file the rewriter calls hooked; the converse holds exactly for footers
      whose offset and size do not add up past 2^64. */
  lemma HookedIffAccepted(file: seq<byte>, entry: nat)
    requires entry != 0 && |file| < WORD
    ensures var accepted := ParseTrampoline(file, entry).Nothing? || ParseTrampoline(file, entry).Found?;
      IsAlreadyHooked(file) <==> accepted && !FooterWraps(file)
  {
    if |file| >= 32 {
      var h := file[|file| - 32..];
      FieldBound(h[8..16]);
      FieldBound(h[24..32]);
      WrapSum(FromLe(h[8..16]) + FromLe(h[24..32]), |file| - 32);
    }
  }

  /** A footer alone, with an offset one page below 2^64 and a size of one page: the loader takes it for a
      trampoline at the end of the file, the rewriter does not take the file for hooked. */
  lemma WrappedFooter(entry: nat)
    requires entry != 0
    ensures var file := Footer(WORD - PAGE, 0, PAGE);
      ParseTrampoline(file, entry) == Found(Trampoline(0, WORD - PAGE, PAGE, entry)) && !IsAlreadyHooked(file)
  {
    var file := Footer(WORD - PAGE, 0, PAGE);
    FooterFields(WORD - PAGE, 0, PAGE);
    assert file[|file| - 32..] == file;
  }

  lemma FieldBound(bs: seq<byte>)
    requires |bs| == 8
    ensures FromLe(bs) < WORD
  {
    LeBound(bs);
    WordLimit();
  }

  lemma WrapSum(sum: nat, n: nat)
    requires n < WORD
    ensures sum < WORD ==> (sum % WORD == n <==> sum == n)
  {
  }

  // ----- placing the trampoline -----

  function Start(base: nat, t: Trampoline): nat { base + t.vaddr }

  function End(base: nat, t: Trampoline): nat { Up(base + t.vaddr + t.size) }

  const RW := Prot(true, true, false)
  const RX := Prot(true, false, true)

  function Length(base: nat, t: Trampoline): nat {
    PageBounds(base + t.vaddr + t.size);
    End(base, t) - Start(base, t)
  }

  /** The calls of load_trampoline on values: map it writable, write the entry point, make it
      executable. */
  function PlaceAt(m: Cells, file: seq<byte>, start: nat, n: nat, off: nat, entry: nat): (Outcome, Cells) {
    if start % PAGE != 0 || n % PAGE != 0 || off % PAGE != 0 then (MapError, m)
    else
      var m1 := m + FilePart(start, n, file, off, RW);
      if !Writable(m1, start, 8) then (Fault, m1)
      else (Ok, Reprotect(Poke(m1, start, ToLe(entry, 8)), start, n, RX))
  }

  function PlaceTrampoline(m: Cells, file: seq<byte>, base: nat, t: Trampoline): (Outcome, Cells) {
    PlaceAt(m, file, Start(base, t), Length(base, t), t.offset, t.entry)
  }

  method MapTrampoline(space: Space, file: seq<byte>, start: nat, n: nat, off: nat, entry: nat) returns (r: Outcome)
    modifies space
    ensures (r, space.cells) == PlaceAt(old(space.cells), file, start, n, off, entry)
  {
    r := space.MapFile(start, n, file, off, RW);
    if r != Ok { return; }
    r := space.Write(start, ToLe(entry, 8));
    if r != Ok { return; }
    r := space.Protect(start, n, RX);
  }

  /** load_trampoline, in place. */
  method LoadTrampoline(space: Space, file: seq<byte>, base: nat, t: Trampoline, brk: nat)
    returns (r: Outcome, newBrk: nat)
    modifies space
    ensures (r, space.cells) == PlaceTrampoline(old(space.cells), file, base, t)
    ensures newBrk == if r == Ok && End(base, t) > brk then End(base, t) else brk
  {
    newBrk := brk;
    r := MapTrampoline(space, file, Start(base, t), Length(base, t), t.offset, t.entry);
    if r == Ok && End(base, t) > brk { newBrk := End(base, t); }
  }

  /** The entry point in the first eight bytes, the code behind them. */
  function TrampolineByte(file: seq<byte>, base: nat, t: Trampoline, x: nat): byte
    requires Start(base, t) <= x
  {
    var d := x - Start(base, t);
    if d < 8 then ToLe(t.entry, 8)[d] else FileByte(file, t.offset + d)
  }

  /** A parsed trampoline always loads; its pages then hold the entry point followed by the code, are
      executable and no longer writable, and nothing else has changed. */
  lemma TrampolineImage(m: Cells, file: seq<byte>, base: nat, t: Trampoline, x: nat)
    requires base % PAGE == 0 && t.vaddr % PAGE == 0 && t.offset % PAGE == 0 && t.size > 0
    ensures var (r, m') := PlaceTrampoline(m, file, base, t);
      var start, end := Start(base, t), End(base, t);
      && r == Ok
      && (x in m' <==> x in m || start <= x < end)
      && (start <= x < end ==>
            m'[x] == Cell(TrampolineByte(file, base, t, x), Prot(true, false, true)))
      && (x in m && !(start <= x < end) ==> m'[x] == m[x])
  {
    TrampolinePages(base, t);
    PlacedPages(m, file, Start(base, t), Length(base, t), t.offset, t.entry, x);
  }

  lemma PlacedPages(m: Cells, file: seq<byte>, start: nat, n: nat, off: nat, entry: nat, x: nat)
    requires start % PAGE == 0 && n % PAGE == 0 && off % PAGE == 0 && n >= 8
    ensures var (r, m') := PlaceAt(m, file, start, n, off, entry);
      && r == Ok
      && (x in m' <==> x in m || start <= x < start + n)
      && (start <= x < start + n ==>
            m'[x] == Cell(if x - start < 8 then ToLe(entry, 8)[x - start] else FileByte(file, off + (x - start)), RX))
      && (x in m && !(start <= x < start + n) ==> m'[x] == m[x])
  {
  }

  lemma TrampolinePages(base: nat, t: Trampoline)
    requires base % PAGE == 0 && t.vaddr % PAGE == 0 && t.size > 0
    ensures Start(base, t) % PAGE == 0 && Length(base, t) % PAGE == 0 && Length(base, t) >= PAGE
    ensures Start(base, t) + Length(base, t) == End(base, t)
  {
  }

  lemma ParsedIsPlaceable(file: seq<byte>, entry: nat)
    requires ParseTrampoline(file, entry).Found?
    ensures var t := ParseTrampoline(file, entry).t; t.vaddr % PAGE == 0 && t.offset % PAGE == 0 && t.size > 0
  {
  }

  // ----- the span of a position-independent file -----

  function Lowest(phs: seq<Phdr>): nat {
    if phs == [] then WORD - 1
    else
      var low, v := Lowest(phs[..|phs| - 1]), phs[|phs| - 1].vaddr;
      if v < low then v else low
  }

  function Highest(phs: seq<Phdr>): nat {
    if phs == [] then 0
    else
      var high, e := Highest(phs[..|phs| - 1]), phs[|phs| - 1].vaddr + phs[|phs| - 1].memsz;
      if high < e then e else high
  }

  /** The file offset of the segment with the lowest address, the last one if there are several. */
  function FirstOffset(phs: seq<Phdr>): Option<nat> {
    if phs == [] then None
    else
      var ph := phs[|phs| - 1];
      if ph.vaddr <= Lowest(phs[..|phs| - 1]) then Some(ph.offset) else FirstOffset(phs[..|phs| - 1])
  }

  predicate IsPowerOfTwo(n: nat) { n == 1 || (n > 1 && n % 2 == 0 && IsPowerOfTwo(n / 2)) }

  function WidestAlign(phs: seq<Phdr>): nat {
    if phs == [] then PAGE
    else
      var w, a := WidestAlign(phs[..|phs| - 1]), phs[|phs| - 1].align;
      if IsPowerOfTwo(a) && w < a then a else w
  }

  /** The lowest and the highest address of the file, trampoline included. */
  function Bottom(phs: seq<Phdr>, t: Option<Trampoline>): nat {
    if t.Some? && t.value.vaddr < Lowest(phs) then t.value.vaddr else Lowest(phs)
  }

  function Top(phs: seq<Phdr>, t: Option<Trampoline>): nat {
    if t.Some? && Highest(phs) < t.value.vaddr + t.value.size then t.value.vaddr + t.value.size else Highest(phs)
  }

  function Low(phs: seq<Phdr>, t: Option<Trampoline>): nat { Down(Bottom(phs, t)) }

  function High(phs: seq<Phdr>, t: Option<Trampoline>): nat { Up(Top(phs, t)) }

  /** What `load` asks the mapper to reserve. */
  datatype Request = Request(span: nat, align: nat, hint: nat)

  predicate SpanOverflows(phs: seq<Phdr>, t: Option<Trampoline>) {
    || (exists i :: 0 <= i < |phs| && phs[i].vaddr + phs[i].memsz >= WORD)
    || (t.Some? && t.value.vaddr + t.value.size >= WORD)
    || High(phs, t) >= WORD
    || High(phs, t) < Low(phs, t)
  }

  function Hint(phs: seq<Phdr>, cow: Option<nat>): nat
    requires cow.Some? ==> cow.value > 0
  {
    if cow.Some? && FirstOffset(phs).Some? then FirstOffset(phs).value % cow.value else 0
  }

  function Wanted(phs: seq<Phdr>, t: Option<Trampoline>, cow: Option<nat>): Request
    requires !SpanOverflows(phs, t) && (cow.Some? ==> cow.value > 0)
  {
    Request(High(phs, t) - Low(phs, t), WidestAlign(phs), Hint(phs, cow))
  }

  /** Without a view alignment no room is asked for. */
  lemma NoViewNoRoom(phs: seq<Phdr>)
    ensures Hint(phs, None) == 0
  {
  }

  /** The scan over the program headers. */
  method ScanHeaders(phs: seq<Phdr>) returns (r: Outcome, min: nat, max: nat, align: nat, first: Option<nat>)
    ensures r == if exists i :: 0 <= i < |phs| && phs[i].vaddr + phs[i].memsz >= WORD then InvalidProgramHeader else Ok
    ensures r == Ok ==>
      min == Lowest(phs) && max == Highest(phs) && align == WidestAlign(phs) && first == FirstOffset(phs)
  {
    r, min, max, align, first := Ok, WORD - 1, 0, PAGE, None;
    var i := 0;
    while i < |phs|
      invariant 0 <= i <= |phs| && r == Ok
      invariant min == Lowest(phs[..i]) && max == Highest(phs[..i])
      invariant align == WidestAlign(phs[..i]) && first == FirstOffset(phs[..i])
      invariant forall k :: 0 <= k < i ==> phs[k].vaddr + phs[k].memsz < WORD
    {
      var ph := phs[i];
      assert phs[..i + 1][..i] == phs[..i];
      if ph.vaddr <= min { first := Some(ph.offset); }
      if ph.vaddr < min { min := ph.vaddr; }
      if ph.vaddr + ph.memsz >= WORD { r := InvalidProgramHeader; return; }
      if max < ph.vaddr + ph.memsz { max := ph.vaddr + ph.memsz; }
      if IsPowerOfTwo(ph.align) && align < ph.align { align := ph.align; }
      i := i + 1;
    }
    assert phs[..i] == phs;
  }

  /** Which files are refused, with the limits written out: for a file with segments, exactly those with an
      address sum beyond 2^64 - 1, rounding of the highest one up to a page included. */
  lemma SpanOverflowsIff(phs: seq<Phdr>, t: Option<Trampoline>)
    requires phs != []
    ensures SpanOverflows(phs, t) <==>
      || (exists i :: 0 <= i < |phs| && phs[i].vaddr + phs[i].memsz > 0xffff_ffff_ffff_ffff)
      || (t.Some? && t.value.vaddr + t.value.size > 0xffff_ffff_ffff_ffff)
      || (exists i :: 0 <= i < |phs| && Up(phs[i].vaddr + phs[i].memsz) > 0xffff_ffff_ffff_ffff)
      || (t.Some? && Up(t.value.vaddr + t.value.size) > 0xffff_ffff_ffff_ffff)
  {
    Extremes(phs);
    BoundsInOrder(phs, t);
    TopReached(phs, t);
  }

  lemma BoundsInOrder(phs: seq<Phdr>, t: Option<Trampoline>)
    requires phs != []
    ensures Low(phs, t) <= High(phs, t)
  {
    Extremes(phs);
    PageBounds(Bottom(phs, t));
    PageBounds(Top(phs, t));
    assert Lowest(phs) <= phs[0].vaddr && phs[0].vaddr + phs[0].memsz <= Highest(phs);
  }

  lemma TopReached(phs: seq<Phdr>, t: Option<Trampoline>)
    requires phs != []
    ensures High(phs, t) >= WORD <==>
      || (exists i :: 0 <= i < |phs| && Up(phs[i].vaddr + phs[i].memsz) >= WORD)
      || (t.Some? && Up(t.value.vaddr + t.value.size) >= WORD)
  {
    Extremes(phs);
    forall i | 0 <= i < |phs| ensures Up(phs[i].vaddr + phs[i].memsz) <= High(phs, t) {
      UpMonotone(phs[i].vaddr + phs[i].memsz, Top(phs, t));
    }
    if t.Some? { UpMonotone(t.value.vaddr + t.value.size, Top(phs, t)); }
    if Top(phs, t) == Highest(phs) {
      var i :| 0 <= i < |phs| && Highest(phs) == phs[i].vaddr + phs[i].memsz;
      assert Up(phs[i].vaddr + phs[i].memsz) == High(phs, t);
    }
  }

  /** Bounds, alignment, and the room a copy-on-write view of the lowest segment needs in front. */
  method ComputeRequest(phs: seq<Phdr>, t: Option<Trampoline>, cow: Option<nat>) returns (r: Outcome, q: Request)
    requires cow.Some? ==> cow.value > 0
    ensures r == if SpanOverflows(phs, t) then InvalidProgramHeader else Ok
    ensures r == Ok ==> q == Wanted(phs, t, cow)
  {
    q := Request(0, 0, 0);
    var min, max, align, first;
    r, min, max, align, first := ScanHeaders(phs);
    if r != Ok { return; }
    if t.Some? {
      if t.value.vaddr < min { min := t.value.vaddr; }
      if t.value.vaddr + t.value.size >= WORD { return InvalidProgramHeader, q; }
      if max < t.value.vaddr + t.value.size { max := t.value.vaddr + t.value.size; }
    }
    var low, high := Down(min), Up(max);
    if high >= WORD || high < low { return InvalidProgramHeader, q; }
    var hint := if cow.Some? && first.Some? then first.value % cow.value else 0;
    return Ok, Request(high - low, align, hint);
  }

  lemma {:induction false} Extremes(phs: seq<Phdr>)
    ensures forall i :: 0 <= i < |phs| ==> Lowest(phs) <= phs[i].vaddr && phs[i].vaddr + phs[i].memsz <= Highest(phs)
    ensures phs != [] ==> exists i :: 0 <= i < |phs| && Highest(phs) == phs[i].vaddr + phs[i].memsz
  {
    if phs != [] {
      var n := |phs| - 1;
      var rest := phs[..n];
      Extremes(rest);
      forall i | 0 <= i < n ensures phs[i] == rest[i] {}
      if Highest(phs) != phs[n].vaddr + phs[n].memsz && rest != [] {
        var i :| 0 <= i < |rest| && Highest(rest) == rest[i].vaddr + rest[i].memsz;
        assert Highest(phs) == phs[i].vaddr + phs[i].memsz;
      }
    }
  }

  lemma {:induction false} FirstIsLowest(phs: seq<Phdr>) returns (i: nat)
    requires phs != [] && forall i :: 0 <= i < |phs| ==> phs[i].vaddr < WORD
    ensures i < |phs| && phs[i].vaddr == Lowest(phs) && FirstOffset(phs) == Some(phs[i].offset)
  {
    var n := |phs| - 1;
    var rest := phs[..n];
    i := n;
    if phs[n].vaddr > Lowest(rest) {
      i := FirstIsLowest(rest);
    }
  }

  /** Whatever the loader maps for a segment or the trampoline lies between the two bounds. */
  lemma SegmentWithinBounds(base: nat, phs: seq<Phdr>, t: Option<Trampoline>, i: nat)
    requires base % PAGE == 0 && i < |phs|
    ensures base + Low(phs, t) <= LoadStart(base, phs[i]) && LoadEnd(base, phs[i]) <= base + High(phs, t)
  {
    Extremes(phs);
    StartsAbove(base, Bottom(phs, t), phs[i]);
    EndsBelow(base, Top(phs, t), phs[i]);
  }

  lemma StartsAbove(base: nat, bottom: nat, ph: Phdr)
    requires base % PAGE == 0 && bottom <= ph.vaddr
    ensures base + Down(bottom) <= LoadStart(base, ph)
  {
    Shifted(base, ph.vaddr);
    UpMonotone(bottom, ph.vaddr);
  }

  lemma EndsBelow(base: nat, top: nat, ph: Phdr)
    requires base % PAGE == 0 && ph.vaddr + ph.memsz <= top
    ensures LoadEnd(base, ph) <= base + Up(top)
  {
    Shifted(base, ph.vaddr + ph.memsz);
    UpMonotone(ph.vaddr + ph.memsz, top);
  }

  lemma TrampolineWithinBounds(base: nat, phs: seq<Phdr>, t: Trampoline)
    requires base % PAGE == 0
    ensures base + Low(phs, Some(t)) <= Start(base, t) && End(base, t) <= base + High(phs, Some(t))
  {
    Shifted(base, t.vaddr + t.size);
    PageBounds(Bottom(phs, Some(t)));
    UpMonotone(t.vaddr + t.size, Top(phs, Some(t)));
  }

  /** Everything mapped for the file lies in `[base, base + span)`. */
  ghost predicate Contained(base: nat, span: nat, phs: seq<Phdr>, t: Option<Trampoline>) {
    && (forall i, x: nat :: 0 <= i < |phs| && Covers(base, phs[i], x) ==> base <= x < base + span)
    && (t.Some? ==>
          || Start(base, t.value) == End(base, t.value)
          || (base <= Start(base, t.value) && End(base, t.value) <= base + span))
  }

  /** The pages from the one that holds `a` to the one before `b`, if any, end by `span`. */
  predicate EndsBy(a: nat, b: nat, span: nat) { a >= Up(b) || Up(b) <= span }

  /** Every piece of the file that maps a page ends by `span`. */
  predicate EndsWithin(span: nat, phs: seq<Phdr>, t: Option<Trampoline>) {
    && (forall i :: 0 <= i < |phs| ==> EndsBy(Down(phs[i].vaddr), phs[i].vaddr + phs[i].memsz, span))
    && (t.Some? ==> EndsBy(t.value.vaddr, t.value.vaddr + t.value.size, span))
  }

  /** Every segment maps a page, and so does the trampoline (the parser sees to that). */
  predicate NonEmpty(phs: seq<Phdr>, t: Option<Trampoline>) {
    && (forall i :: 0 <= i < |phs| ==> Down(phs[i].vaddr) < Up(phs[i].vaddr + phs[i].memsz))
    && (t.Some? ==> t.value.vaddr < Up(t.value.vaddr + t.value.size))
  }

  /** Containment in the reservation, for every file: since the lowest address is not subtracted when
      segments are placed, everything stays inside exactly if every piece that maps a page ends by the
      span; when all of them do map one, exactly if the lowest page of the file is page 0. */
  lemma ContainedIff(base: nat, phs: seq<Phdr>, t: Option<Trampoline>)
    requires base % PAGE == 0 && phs != [] && !SpanOverflows(phs, t)
    ensures var span := High(phs, t) - Low(phs, t);
      && (Contained(base, span, phs, t) <==> EndsWithin(span, phs, t))
      && (Low(phs, t) == 0 ==> Contained(base, span, phs, t))
      && (NonEmpty(phs, t) ==> (Contained(base, span, phs, t) <==> Low(phs, t) == 0))
  {
    var span := High(phs, t) - Low(phs, t);
    ContainedMeans(base, span, phs, t);
    if Low(phs, t) == 0 { LowPageFits(phs, t); }
    if NonEmpty(phs, t) && Low(phs, t) > 0 { Overhang(phs, t); }
  }

  lemma ContainedMeans(base: nat, span: nat, phs: seq<Phdr>, t: Option<Trampoline>)
    requires base % PAGE == 0
    ensures Contained(base, span, phs, t) <==> EndsWithin(span, phs, t)
  {
    forall i | 0 <= i < |phs|
      ensures (forall x: nat :: Covers(base, phs[i], x) ==> base <= x < base + span)
          <==> EndsBy(Down(phs[i].vaddr), phs[i].vaddr + phs[i].memsz, span)
    {
      SegmentMeans(base, span, phs[i]);
    }
    if t.Some? { Shifted(base, t.value.vaddr + t.value.size); PageBounds(t.value.vaddr + t.value.size); }
  }

  lemma SegmentMeans(base: nat, span: nat, ph: Phdr)
    requires base % PAGE == 0
    ensures (forall x: nat :: Covers(base, ph, x) ==> base <= x < base + span)
        <==> EndsBy(Down(ph.vaddr), ph.vaddr + ph.memsz, span)
  {
    Shifted(base, ph.vaddr);
    Shifted(base, ph.vaddr + ph.memsz);
    if LoadStart(base, ph) < LoadEnd(base, ph) {
      assert Covers(base, ph, LoadEnd(base, ph) - 1);
    }
  }

  lemma LowPageFits(phs: seq<Phdr>, t: Option<Trampoline>)
    requires Low(phs, t) == 0
    ensures EndsWithin(High(phs, t), phs, t)
  {
    Extremes(phs);
    forall i | 0 <= i < |phs| ensures Up(phs[i].vaddr + phs[i].memsz) <= High(phs, t) {
      UpMonotone(phs[i].vaddr + phs[i].memsz, Top(phs, t));
    }
    if t.Some? { UpMonotone(t.value.vaddr + t.value.size, Top(phs, t)); }
  }

  lemma Overhang(phs: seq<Phdr>, t: Option<Trampoline>)
    requires phs != [] && NonEmpty(phs, t) && 0 < Low(phs, t) <= High(phs, t)
    ensures !EndsWithin(High(phs, t) - Low(phs, t), phs, t)
  {
    Extremes(phs);
    if Top(phs, t) == Highest(phs) {
      var i :| 0 <= i < |phs| && Highest(phs) == phs[i].vaddr + phs[i].memsz;
      assert !EndsBy(Down(phs[i].vaddr), phs[i].vaddr + phs[i].memsz, High(phs, t) - Low(phs, t));
    }
  }

  /** A file linked one page up is mapped one page past the end of its reservation. */
  lemma LinkedHigh(base: nat)
    requires base % PAGE == 0
    ensures var phs := [Phdr(PAGE, PAGE, 0, 0, true, false, PAGE)];
      High(phs, None) - Low(phs, None) == PAGE && LoadEnd(base, phs[0]) == base + 2 * PAGE
  {
    var phs := [Phdr(PAGE, PAGE, 0, 0, true, false, PAGE)];
    assert phs[..|phs| - 1] == [];
    assert Lowest([]) == WORD - 1 && Highest([]) == 0;
    assert Lowest(phs) == PAGE;
    assert Highest(phs) == 2 * PAGE;
  }

  lemma {:induction false} PowersDivide(a: nat, b: nat)
    requires IsPowerOfTwo(a) && IsPowerOfTwo(b) && a <= b
    ensures Reserve.IsMultiple(b, a)
    decreases a
  {
    if a == 1 {
      assert b == b * a;
    } else {
      PowersDivide(a / 2, b / 2);
      var q: nat :| b / 2 == q * (a / 2);
      assert b == q * a;
    }
  }

  /** The alignment asked for is a power of two, at least a page and at least that of every segment
      whose alignment is one. */
  lemma {:induction false} WidestIs(phs: seq<Phdr>)
    ensures IsPowerOfTwo(WidestAlign(phs)) && WidestAlign(phs) >= PAGE
    ensures forall i :: 0 <= i < |phs| && IsPowerOfTwo(phs[i].align) ==> phs[i].align <= WidestAlign(phs)
    ensures WidestAlign(phs) == PAGE || exists i :: 0 <= i < |phs| && phs[i].align == WidestAlign(phs)
  {
    if phs == [] {
      PageIsPower();
    } else {
      var rest := phs[..|phs| - 1];
      WidestIs(rest);
      forall i | 0 <= i < |rest| ensures rest[i] == phs[i] {}
      if WidestAlign(phs) == WidestAlign(rest) && WidestAlign(rest) != PAGE {
        var i :| 0 <= i < |rest| && rest[i].align == WidestAlign(rest);
        assert phs[i].align == WidestAlign(phs);
      }
    }
  }

  lemma PageIsPower()
    ensures IsPowerOfTwo(PAGE)
  {
    assert IsPowerOfTwo(16) && IsPowerOfTwo(256);
  }

  lemma AlignIsPages(phs: seq<Phdr>)
    ensures WidestAlign(phs) >= PAGE && WidestAlign(phs) % PAGE == 0
  {
    WidestIs(phs);
    PageIsPower();
    PowersDivide(PAGE, WidestAlign(phs));
    var q: nat :| WidestAlign(phs) == q * PAGE;
  }

  /** So an address aligned for the file is aligned for each of its segments. */
  lemma AlignedForAll(phs: seq<Phdr>, base: nat, i: nat)
    requires Reserve.IsMultiple(base, WidestAlign(phs)) && i < |phs| && IsPowerOfTwo(phs[i].align)
    ensures Reserve.IsMultiple(base, phs[i].align)
  {
    WidestIs(phs);
    PowersDivide(phs[i].align, WidestAlign(phs));
    Reserve.MultipleOfMultiple(base, WidestAlign(phs), phs[i].align);
  }

  /** Where the file goes in the mapping the kernel returned at `ptr`. */
  function Regions(ptr: nat, q: Request): Reserve.Regions
    requires q.align >= PAGE
  {
    Reserve.Compute(ptr, Reserve.Mapped(q.span, q.align, q.hint), q.span, q.align, q.hint)
  }

  /** Reserving, trimming and placing together: whatever address the kernel returns, the trims and the
      range `[lo, hi)` kept partition what was mapped, the base is aligned as every segment asks, the
      range holds the room and the span, and for a file whose lowest page is 0 it holds every page
      mapped for a segment or the trampoline. */
  lemma StaysReserved(ptr: nat, phs: seq<Phdr>, t: Option<Trampoline>, cow: Option<nat>) returns (lo: nat, hi: nat)
    requires ptr % PAGE == 0 && phs != [] && !SpanOverflows(phs, t) && (cow.Some? ==> cow.value > 0)
    ensures WidestAlign(phs) >= PAGE
    ensures var q := Wanted(phs, t, cow); var r := Regions(ptr, q);
      && (forall i :: 0 <= i < |phs| && IsPowerOfTwo(phs[i].align) ==> Reserve.IsMultiple(r.alignedPtr, phs[i].align))
      && Reserve.Parted(r, ptr, Up(ptr + Reserve.Mapped(q.span, q.align, q.hint)), lo, hi)
      && lo + q.hint <= r.alignedPtr && r.alignedPtr + q.span == hi
      && (Low(phs, t) == 0 ==> Contained(r.alignedPtr, q.span, phs, t))
  {
    AlignIsPages(phs);
    var q := Wanted(phs, t, cow);
    SpanIsPages(phs, t);
    lo, hi := Reserve.WholePages(ptr, q.span, q.align, q.hint);
    var base := Regions(ptr, q).alignedPtr;
    ContainedIff(base, phs, t);
    forall i | 0 <= i < |phs| && IsPowerOfTwo(phs[i].align) ensures Reserve.IsMultiple(base, phs[i].align) {
      AlignedForAll(phs, base, i);
    }
  }

  lemma SpanIsPages(phs: seq<Phdr>, t: Option<Trampoline>)
    requires !SpanOverflows(phs, t)
    ensures (High(phs, t) - Low(phs, t)) % PAGE == 0
  {
    PageBounds(Bottom(phs, t));
    PageBounds(Top(phs, t));
    PagesBetween(Low(phs, t), High(phs, t));
  }

  /** All of `[from, to)` is in `[lo, hi)`. */
  predicate Inside(from: int, to: int, lo: nat, hi: nat) { from >= to || (lo <= from && to <= hi) }

  /** The room asked for is what a copy-on-write view needs: rounding the lowest segment's file offset
      down to the view alignment moves its start back by exactly the hint. Those bytes before the segment
      are kept of the reservation exactly if there are none or the lowest address is within the span,
      as it is for a file whose lowest page is 0. */
  lemma CowViewIsReserved(ptr: nat, phs: seq<Phdr>, t: Option<Trampoline>, cow: nat) returns (i: nat, lo: nat, hi: nat)
    requires ptr % PAGE == 0 && phs != [] && !SpanOverflows(phs, t) && cow > 0
    ensures i < |phs| && phs[i].vaddr == Lowest(phs) && WidestAlign(phs) >= PAGE
    ensures var q := Wanted(phs, t, Some(cow)); var r := Regions(ptr, q);
      var start := Adjusted(r.alignedPtr, phs[i]);
      && q.hint <= phs[i].offset && Reserve.IsMultiple(phs[i].offset - q.hint, cow) && q.hint < cow
      && Reserve.Parted(r, ptr, Up(ptr + Reserve.Mapped(q.span, q.align, q.hint)), lo, hi)
      && (Inside(start - q.hint, start, lo, hi) <==> q.hint == 0 || Lowest(phs) <= q.span)
      && (Low(phs, t) == 0 ==> Lowest(phs) <= q.span)
  {
    i := FirstIsLowest(phs);
    RoundedOffset(phs[i].offset, cow);
    lo, hi := StaysReserved(ptr, phs, t, Some(cow));
    var q := Wanted(phs, t, Some(cow));
    RoomInside(Regions(ptr, q).alignedPtr, Lowest(phs), q.span, q.hint, lo, hi);
    Extremes(phs);
    PageBounds(Top(phs, t));
  }

  lemma RoomInside(base: nat, lowest: nat, span: nat, hint: nat, lo: nat, hi: nat)
    requires lo + hint <= base && base + span == hi
    ensures Inside(base + lowest - hint, base + lowest, lo, hi) <==> hint == 0 || lowest <= span
  {
  }

  /** A one-page file linked sixteen pages up, one page into the file: the room in front of it starts
      fourteen pages past the end of what is kept. */
  lemma RoomPastTheEnd(ptr: nat) returns (lo: nat, hi: nat)
    requires ptr % PAGE == 0
    ensures var phs := [Phdr(16 * PAGE, PAGE, PAGE, PAGE, true, false, PAGE)];
      && !SpanOverflows(phs, None) && WidestAlign(phs) >= PAGE
      && var q := Wanted(phs, None, Some(65536)); var r := Regions(ptr, q);
      && q.span == PAGE && q.hint == PAGE
      && Reserve.Parted(r, ptr, Up(ptr + Reserve.Mapped(q.span, q.align, q.hint)), lo, hi)
      && Adjusted(r.alignedPtr, phs[0]) - q.hint == hi + 14 * PAGE
  {
    var phs := [Phdr(16 * PAGE, PAGE, PAGE, PAGE, true, false, PAGE)];
    assert phs[..|phs| - 1] == [];
    assert Lowest([]) == WORD - 1 && Highest([]) == 0;
    assert Lowest(phs) == 16 * PAGE;
    assert Highest(phs) == 17 * PAGE;
    assert FirstOffset(phs) == Some(PAGE);
    lo, hi := StaysReserved(ptr, phs, None, Some(65536));
  }

  lemma RoundedOffset(off: nat, cow: nat)
    requires cow > 0
    ensures off % cow <= off && Reserve.IsMultiple(off - off % cow, cow)
  {
    assert off == (off / cow) * cow + off % cow;
    assert off - off % cow == (off / cow) * cow;
  }

  // ----- all of it -----

  /** What the process set-up needs to know about a loaded file. */
  datatype Info = Info(base: nat, brk: nat, entryPoint: nat, phdrsAddr: nat)

  function LoadCells(m: Cells, file: seq<byte>, base: nat, phs: seq<Phdr>, dynamic: Relocations.Dynamic,
                     t: Option<Trampoline>): (Outcome, Cells)
  {
    var (r, m1) := Relocations.LoadRelocated(m, file, base, phs, dynamic);
    if r == Ok && t.Some? then PlaceTrampoline(m1, file, base, t.value) else (r, m1)
  }

  /** `load` for a chosen base address. */
  method Load(space: Space, file: seq<byte>, base: nat, phs: seq<Phdr>, phoff: nat, entry: nat,
              dynamic: Relocations.Dynamic, relocate: bool, t: Option<Trampoline>, reserve: Option<nat>)
    returns (r: Outcome, info: Info)
    modifies space
    ensures (r, space.cells) ==
      LoadCells(old(space.cells), file, base, phs, if relocate then dynamic else Relocations.Absent, t)
    ensures r == Ok ==>
      && info.base == base && info.entryPoint == (base + entry) % WORD && info.phdrsAddr == PhdrsAddr(base, phs, phoff)
      && info.brk == FinalBrk(base, phs, t, reserve)
  {
    info := Info(base, 0, 0, 0);
    var brk, addr;
    r, brk, addr := MapSegments(space, file, base, phs, phoff);
    if r != Ok { return; }
    if relocate {
      r := Relocations.ApplyRelocations(space, base, dynamic);
      if r != Ok { return; }
    }
    if t.Some? {
      r, brk := LoadTrampoline(space, file, base, t.value, brk);
    } else if reserve.Some? {
      brk := Up(brk) + Up(reserve.value);
    }
    info := Info(base, brk, (base + entry) % WORD, addr);
  }

  function FinalBrk(base: nat, phs: seq<Phdr>, t: Option<Trampoline>, reserve: Option<nat>): nat {
    var brk := Brk(base, phs);
    if t.Some? then if End(base, t.value) > brk then End(base, t.value) else brk
    else if reserve.Some? then Up(brk) + Up(reserve.value)
    else brk
  }

  /** The break is no higher than that: it is the end of a segment or of the trampoline, or the highest end plus
      the room set aside in whole pages. */
  lemma FinalBrkIs(base: nat, phs: seq<Phdr>, t: Option<Trampoline>, reserve: Option<nat>)
    ensures var brk := FinalBrk(base, phs, t, reserve); var top := Brk(base, phs);
      if t.Some? then brk == End(base, t.value) || (brk == top && top >= End(base, t.value))
      else brk == top + (if reserve.Some? then Up(reserve.value) else 0)
    ensures phs == [] ==> Brk(base, phs) == 0
    ensures phs != [] ==> exists i :: 0 <= i < |phs| && Brk(base, phs) == LoadEnd(base, phs[i])
  {
    BrkIsAbove(base, phs);
    PageBounds(Brk(base, phs));
  }

  /** The break is page-aligned and at or above everything mapped or set aside. */
  lemma FinalBrkIsAbove(base: nat, phs: seq<Phdr>, t: Option<Trampoline>, reserve: Option<nat>, i: nat)
    ensures var brk := FinalBrk(base, phs, t, reserve);
      && brk % PAGE == 0
      && (i < |phs| ==> LoadEnd(base, phs[i]) <= brk)
      && (t.Some? ==> End(base, t.value) <= brk)
      && (t.None? && reserve.Some? ==> Brk(base, phs) + reserve.value <= brk)
  {
    var brk := Brk(base, phs);
    BrkIsAbove(base, phs);
    if t.Some? {
      PageBounds(base + t.value.vaddr + t.value.size);
    } else if reserve.Some? {
      TwoPages(brk, reserve.value);
    }
  }

  lemma TwoPages(a: nat, b: nat)
    requires a % PAGE == 0
    ensures Up(a) == a && (a + Up(b)) % PAGE == 0 && b <= Up(b)
  {
  }

  /** The whole image, trampoline included: with all page ranges apart, once the segments are loaded and
      relocated the trampoline loads too; its pages then hold the entry point and the code, and every
      page of a segment is as relocation left it, with the segment's protection. */
  lemma WholeImage(m: Cells, file: seq<byte>, base: nat, phs: seq<Phdr>, dynamic: Relocations.Dynamic, t: Trampoline,
                   i: nat, x: nat)
    requires base % PAGE == 0 && t.vaddr % PAGE == 0 && t.offset % PAGE == 0 && t.size > 0
    requires PagesApart(base, phs) && Relocations.LoadRelocated(m, file, base, phs, dynamic).0 == Ok && i < |phs|
    requires forall k, y: nat :: 0 <= k < |phs| && Covers(base, phs[k], y) ==> !(Start(base, t) <= y < End(base, t))
    ensures var m1 := Relocations.LoadRelocated(m, file, base, phs, dynamic).1;
      var (r, m') := LoadCells(m, file, base, phs, dynamic, Some(t));
      && r == Ok
      && (Covers(base, phs[i], x) ==> x in m1 && x in m' && m'[x] == m1[x] && m'[x].prot == Protection(phs[i]))
      && (Start(base, t) <= x < End(base, t) ==> x in m' && m'[x] == Cell(TrampolineByte(file, base, t, x), RX))
  {
    var m0, m1 := LoadAll(m, file, base, phs).1, Relocations.LoadRelocated(m, file, base, phs, dynamic).1;
    TrampolineImage(m1, file, base, t, x);
    Relocations.RelocationKeepsMap(m0, base, dynamic);
    if Covers(base, phs[i], x) { MemoryImage(m, file, base, phs, i, x); }
  }
}
