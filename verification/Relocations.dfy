/** Applying the dynamic relocations of a loaded file: the scan of the dynamic table, both relocation
    tables, and the memory image they leave. */
module Relocations {
  import opened Bytes
  import opened Memory
  import opened Segments
  import opened Relr

  /** An entry of the dynamic table. */
  datatype Dyn = Dyn(tag: nat, val: nat)

  const DT_RELA: nat := 7
  const DT_RELASZ: nat := 8
  const DT_RELAENT: nat := 9
  const DT_RELRSZ: nat := 0x23
  const DT_RELR: nat := 0x24
  const DT_RELRENT: nat := 0x25

  function Dyns(bs: seq<byte>): seq<Dyn> {
    if |bs| < 16 then [] else [Dyn(FromLe(bs[..8]), FromLe(bs[8..16]))] + Dyns(bs[16..])
  }

  /** The value of the last entry with this tag; nothing ends the table early. */
  function Last(ds: seq<Dyn>, tag: nat): Option<nat> {
    if ds == [] then None
    else if ds[|ds| - 1].tag == tag then Some(ds[|ds| - 1].val)
    else Last(ds[..|ds| - 1], tag)
  }

  /** Address, size and entry size of a table, as far as the dynamic table gives them. */
  datatype Table = Table(vaddr: Option<nat>, size: Option<nat>, ent: Option<nat>)

  function RelaTable(ds: seq<Dyn>): Table { Table(Last(ds, DT_RELA), Last(ds, DT_RELASZ), Last(ds, DT_RELAENT)) }

  function RelrTable(ds: seq<Dyn>): Table { Table(Last(ds, DT_RELR), Last(ds, DT_RELRSZ), Last(ds, DT_RELRENT)) }

  predicate Present(t: Table) { t.vaddr.Some? && t.size.Some? }

  predicate WrongEntries(t: Table, ent: nat) { t.ent.Some? && t.ent.value != ent }

  function RelaCells(m: Cells, base: nat, vaddr: nat, size: nat): (Outcome, Cells) {
    if !Readable(m, base + vaddr, size) then (Fault, m)
    else RelaAll(m, base, Relas(Fetch(m, base + vaddr, size)))
  }

  function ApplyRelaTable(m: Cells, base: nat, t: Table): (Outcome, Cells) {
    if !Present(t) then (Ok, m)
    else if WrongEntries(t, 24) then (InvalidProgramHeader, m)
    else RelaCells(m, base, t.vaddr.value, t.size.value)
  }

  function ApplyRelrTable(m: Cells, base: nat, t: Table): (Outcome, Cells) {
    if !Present(t) then (Ok, m)
    else if WrongEntries(t, 8) then (InvalidProgramHeader, m)
    else RelrCells(m, base, t.vaddr.value, t.size.value)
  }

  /** Both tables, the explicit one first. */
  function ApplyTables(m: Cells, base: nat, rela: Table, relr: Table): (Outcome, Cells) {
    var (r, m1) := ApplyRelaTable(m, base, rela);
    if r != Ok then (r, m1) else ApplyRelrTable(m1, base, relr)
  }

  /** A PT_DYNAMIC segment, if there is one. */
  datatype Dynamic = Absent | At(vaddr: nat, len: nat)

  function Relocated(m: Cells, base: nat, dynamic: Dynamic): (Outcome, Cells) {
    if dynamic.Absent? then (Ok, m)
    else if !Readable(m, base + dynamic.vaddr, dynamic.len) then (Fault, m)
    else ApplyDynamic(m, base, Dyns(Fetch(m, base + dynamic.vaddr, dynamic.len)))
  }

  function ApplyDynamic(m: Cells, base: nat, ds: seq<Dyn>): (Outcome, Cells) {
    ApplyTables(m, base, RelaTable(ds), RelrTable(ds))
  }

  // ----- in place -----

  /** The loop over the dynamic table. */
  method ScanDynamic(ds: seq<Dyn>) returns (rela: Table, relr: Table)
    ensures rela == RelaTable(ds) && relr == RelrTable(ds)
  {
    rela, relr := Table(None, None, None), Table(None, None, None);
    for i := 0 to |ds|
      invariant rela == RelaTable(ds[..i]) && relr == RelrTable(ds[..i])
    {
      assert ds[..i + 1][..i] == ds[..i];
      var d := ds[i];
      if d.tag == DT_RELA { rela := rela.(vaddr := Some(d.val)); }
      else if d.tag == DT_RELASZ { rela := rela.(size := Some(d.val)); }
      else if d.tag == DT_RELAENT { rela := rela.(ent := Some(d.val)); }
      else if d.tag == DT_RELR { relr := relr.(vaddr := Some(d.val)); }
      else if d.tag == DT_RELRSZ { relr := relr.(size := Some(d.val)); }
      else if d.tag == DT_RELRENT { relr := relr.(ent := Some(d.val)); }
    }
    assert ds[..|ds|] == ds;
  }

  method RunRela(mem: Space, base: nat, t: Table) returns (r: Outcome)
    modifies mem
    ensures (r, mem.cells) == ApplyRelaTable(old(mem.cells), base, t)
  {
    if !(t.vaddr.Some? && t.size.Some?) { return Ok; }
    if t.ent.Some? && t.ent.value != 24 { return InvalidProgramHeader; }
    var bytes;
    r, bytes := mem.Read(base + t.vaddr.value, t.size.value);
    if r != Ok { return; }
    r := ApplyRela(mem, base, Relas(bytes));
  }

  method RunRelr(mem: Space, base: nat, t: Table) returns (r: Outcome)
    modifies mem
    ensures (r, mem.cells) == ApplyRelrTable(old(mem.cells), base, t)
  {
    if !(t.vaddr.Some? && t.size.Some?) { return Ok; }
    if t.ent.Some? && t.ent.value != 8 { return InvalidProgramHeader; }
    r := ApplyRelr(mem, base, t.vaddr.value, t.size.value);
  }

  /** apply_relocations, in place. */
  method ApplyRelocations(mem: Space, base: nat, dynamic: Dynamic) returns (r: Outcome)
    modifies mem
    ensures (r, mem.cells) == Relocated(old(mem.cells), base, dynamic)
  {
    if dynamic.Absent? { return Ok; }
    var bytes;
    r, bytes := mem.Read(base + dynamic.vaddr, dynamic.len);
    if r != Ok { return; }
    var rela, relr := ScanDynamic(Dyns(bytes));
    r := RunRela(mem, base, rela);
    if r != Ok { return; }
    r := RunRelr(mem, base, relr);
  }

  // ----- the relocated image -----

  /** No protection changes and nothing is mapped or unmapped, whatever the tables say and however far
      they get. */
  lemma RelocationKeepsMap(m: Cells, base: nat, dynamic: Dynamic)
    ensures SameMap(m, Relocated(m, base, dynamic).1)
  {
    if dynamic.At? && Readable(m, base + dynamic.vaddr, dynamic.len) {
      DynamicKeepsMap(m, base, Dyns(Fetch(m, base + dynamic.vaddr, dynamic.len)));
    }
  }

  lemma DynamicKeepsMap(m: Cells, base: nat, ds: seq<Dyn>)
    ensures SameMap(m, ApplyDynamic(m, base, ds).1)
  {
    TablesKeepMap(m, base, RelaTable(ds), RelrTable(ds));
  }

  lemma TablesKeepMap(m: Cells, base: nat, rela: Table, relr: Table)
    ensures SameMap(m, ApplyTables(m, base, rela, relr).1)
  {
    var m1 := ApplyRelaTable(m, base, rela).1;
    RelaTableKeepsMap(m, base, rela);
    RelrTableKeepsMap(m1, base, relr);
    SameMapTwice(m, m1, ApplyRelrTable(m1, base, relr).1);
  }

  lemma SameMapTwice(m: Cells, m1: Cells, m2: Cells)
    requires SameMap(m, m1) && SameMap(m1, m2)
    ensures SameMap(m, m2)
  {
  }

  lemma RelaTableKeepsMap(m: Cells, base: nat, t: Table)
    ensures SameMap(m, ApplyRelaTable(m, base, t).1)
  {
    if Present(t) && Readable(m, base + t.vaddr.value, t.size.value) {
      RelaOutside(m, base, Relas(Fetch(m, base + t.vaddr.value, t.size.value)));
    }
  }

  lemma RelrTableKeepsMap(m: Cells, base: nat, t: Table)
    ensures SameMap(m, ApplyRelrTable(m, base, t).1)
  {
    if Present(t) && Readable(m, base + t.vaddr.value, t.size.value) {
      FixOutside(m, base, Slots(Words(Fetch(m, base + t.vaddr.value, t.size.value)), 0));
    }
  }

  /** The segments with their relocations applied. */
  function LoadRelocated(m: Cells, file: seq<byte>, base: nat, phs: seq<Phdr>, dynamic: Dynamic): (Outcome, Cells) {
    var (r, m1) := LoadAll(m, file, base, phs);
    if r == Ok then Relocated(m1, base, dynamic) else (r, m1)
  }

  // The tables as the freshly loaded memory `m` shows them.

  function DynsIn(m: Cells, base: nat, dynamic: Dynamic): seq<Dyn> {
    if dynamic.At? && Readable(m, base + dynamic.vaddr, dynamic.len)
      then Dyns(Fetch(m, base + dynamic.vaddr, dynamic.len))
    else []
  }

  predicate TableReadable(m: Cells, base: nat, t: Table) {
    Present(t) && Readable(m, base + t.vaddr.value, t.size.value)
  }

  function RelasIn(m: Cells, base: nat, t: Table): seq<Rela> {
    if TableReadable(m, base, t) then Relas(Fetch(m, base + t.vaddr.value, t.size.value)) else []
  }

  function SlotsIn(m: Cells, base: nat, t: Table): seq<nat> {
    if TableReadable(m, base, t) then Slots(Words(Fetch(m, base + t.vaddr.value, t.size.value)), 0) else []
  }

  function RelasOf(m: Cells, base: nat, dynamic: Dynamic): seq<Rela> {
    RelasIn(m, base, RelaTable(DynsIn(m, base, dynamic)))
  }

  function SlotsOf(m: Cells, base: nat, dynamic: Dynamic): seq<nat> {
    SlotsIn(m, base, RelrTable(DynsIn(m, base, dynamic)))
  }

  /** No explicit target overlaps the compressed table, which is read after they are written. */
  ghost predicate Undisturbed(base: nat, relas: seq<Rela>, t: Table) {
    Present(t) ==>
      forall x: nat :: base + t.vaddr.value <= x < base + t.vaddr.value + t.size.value ==>
        Outside(base, Targets(relas), x)
  }

  ghost predicate TableKept(m: Cells, base: nat, dynamic: Dynamic) {
    Undisturbed(base, RelasOf(m, base, dynamic), RelrTable(DynsIn(m, base, dynamic)))
  }

  lemma SameSlots(m: Cells, m1: Cells, base: nat, relas: seq<Rela>, t: Table)
    requires SameOutside(m, m1, base, Targets(relas)) && Undisturbed(base, relas, t)
    ensures (TableReadable(m1, base, t) <==> TableReadable(m, base, t)) && SlotsIn(m1, base, t) == SlotsIn(m, base, t)
  {
    if TableReadable(m, base, t) {
      var a, n := base + t.vaddr.value, t.size.value;
      forall x: nat | a <= x < a + n ensures m1[x] == m[x] { assert Outside(base, Targets(relas), x); }
      assert Fetch(m1, a, n) == Fetch(m, a, n);
    }
  }

  /** What is needed of an explicit or a compressed table, if there is one. */
  predicate RelaFit(m: Cells, base: nat, t: Table) {
    Present(t) ==> !WrongEntries(t, 24) && TableReadable(m, base, t) && AllPatchable(m, base, RelasIn(m, base, t))
  }

  predicate RelrFit(m: Cells, base: nat, t: Table) {
    Present(t) ==>
      && !WrongEntries(t, 8) && t.size.value % 8 == 0
      && TableReadable(m, base, t) && AllFixable(m, base, SlotsIn(m, base, t))
  }

  lemma RelaTableIs(m: Cells, base: nat, t: Table)
    ensures var (r, m') := ApplyRelaTable(m, base, t);
      && (r == Ok <==> RelaFit(m, base, t))
      && (r == Ok ==> RelaAll(m, base, RelasIn(m, base, t)) == (Ok, m'))
  {
    RelaSucceeds(m, base, RelasIn(m, base, t));
  }

  lemma RelrTableIs(m: Cells, base: nat, t: Table)
    ensures var (r, m') := ApplyRelrTable(m, base, t);
      && (r == Ok <==> RelrFit(m, base, t))
      && (r == Ok ==> FixAll(m, base, SlotsIn(m, base, t)) == (Ok, m'))
  {
    FixSucceeds(m, base, SlotsIn(m, base, t));
  }

  /** The two stages of relocation, both told from the memory it starts with: it succeeds exactly if both
      tables fit, and is then the explicit fixups followed by the compressed ones. */
  lemma TwoStages(m: Cells, base: nat, rela: Table, relr: Table) returns (m1: Cells)
    requires Undisturbed(base, RelasIn(m, base, rela), relr)
    ensures var (r, m') := ApplyTables(m, base, rela, relr);
      && (r == Ok <==> RelaFit(m, base, rela) && RelrFit(m, base, relr))
      && (r == Ok ==>
            RelaAll(m, base, RelasIn(m, base, rela)) == (Ok, m1) &&
            FixAll(m1, base, SlotsIn(m, base, relr)) == (Ok, m'))
  {
    m1 := ApplyRelaTable(m, base, rela).1;
    RelaTableIs(m, base, rela);
    if RelaFit(m, base, rela) {
      RelaOutside(m, base, RelasIn(m, base, rela));
      SameSlots(m, m1, base, RelasIn(m, base, rela), relr);
      SameFixable(m, m1, base, SlotsIn(m, base, relr));
      RelrTableIs(m1, base, relr);
    }
  }

  /** Relocation succeeds exactly if the dynamic segment, when there is one, can be read and both tables
      fit. */
  lemma RelocationSucceeds(m: Cells, base: nat, dynamic: Dynamic) returns (m1: Cells)
    requires TableKept(m, base, dynamic)
    ensures var (r, m') := Relocated(m, base, dynamic); var ds := DynsIn(m, base, dynamic);
      && (r == Ok <==> dynamic.At? ==>
            Readable(m, base + dynamic.vaddr, dynamic.len) &&
            RelaFit(m, base, RelaTable(ds)) && RelrFit(m, base, RelrTable(ds)))
      && (r == Ok ==>
            RelaAll(m, base, RelasOf(m, base, dynamic)) == (Ok, m1) &&
            FixAll(m1, base, SlotsOf(m, base, dynamic)) == (Ok, m'))
  {
    var ds := DynsIn(m, base, dynamic);
    m1 := TwoStages(m, base, RelaTable(ds), RelrTable(ds));
  }

  // ----- against the file -----

  /** The `n` bytes at `a` lie in the file part of the segment, and those within the file. */
  predicate InFile(ph: Phdr, file: seq<byte>, a: nat, n: nat) {
    ph.vaddr <= a && a + n <= ph.vaddr + ph.filesz && ph.offset + (a - ph.vaddr) + n <= |file|
  }

  /** What the file holds for them. */
  function FileBytes(ph: Phdr, file: seq<byte>, a: nat, n: nat): (bs: seq<byte>)
    requires InFile(ph, file, a, n)
    ensures |bs| == n
  {
    var o := ph.offset + (a - ph.vaddr);
    file[o..o + n]
  }

  /** The file part of a segment is in memory. */
  ghost predicate HasData(m: Cells, file: seq<byte>, base: nat, ph: Phdr) {
    forall d: nat :: d < ph.filesz ==> HasByte(m, file, base, ph, d)
  }

  predicate HasByte(m: Cells, file: seq<byte>, base: nat, ph: Phdr, d: nat) {
    var a := Adjusted(base, ph) + d;
    a in m && m[a] == Cell(FileByte(file, ph.offset + d), Protection(ph))
  }

  lemma DataLoaded(m: Cells, file: seq<byte>, base: nat, phs: seq<Phdr>, i: nat)
    requires PagesApart(base, phs) && LoadAll(m, file, base, phs).0 == Ok && i < |phs|
    ensures HasData(LoadAll(m, file, base, phs).1, file, base, phs[i])
  {
    forall d: nat | d < phs[i].filesz ensures HasByte(LoadAll(m, file, base, phs).1, file, base, phs[i], d) {
      DataByte(m, file, base, phs, LoadAll(m, file, base, phs).1, i, d);
    }
  }

  /** Tables and words are read from memory as the file has them. */
  lemma FileFetched(m: Cells, file: seq<byte>, base: nat, ph: Phdr, a: nat, n: nat)
    requires HasData(m, file, base, ph) && InFile(ph, file, a, n)
    ensures Readable(m, base + a, n) && Fetch(m, base + a, n) == FileBytes(ph, file, a, n)
  {
    forall x | base + a <= x < base + a + n
      ensures x in m && m[x].prot.read && m[x].value == FileBytes(ph, file, a, n)[x - (base + a)]
    {
      assert HasByte(m, file, base, ph, x - base - ph.vaddr);
    }
    assert Fetch(m, base + a, n) == FileBytes(ph, file, a, n);
  }

  /** The bytes a table or a slot occupies, in the loaded memory. */
  lemma LoadedBytes(m: Cells, file: seq<byte>, base: nat, phs: seq<Phdr>, m0: Cells, i: nat, a: nat, n: nat)
    requires PagesApart(base, phs) && LoadAll(m, file, base, phs) == (Ok, m0) && i < |phs| && InFile(phs[i], file, a, n)
    ensures Readable(m0, base + a, n) && Fetch(m0, base + a, n) == FileBytes(phs[i], file, a, n)
  {
    DataLoaded(m, file, base, phs, i);
    FileFetched(m0, file, base, phs[i], a, n);
  }

  // ----- the relocated image -----

  /** Loaded as `m0` and relocated as `m'`. */
  ghost predicate LoadsTo(m: Cells, file: seq<byte>, base: nat, phs: seq<Phdr>, dynamic: Dynamic, m0: Cells,
                          m': Cells)
  {
    && PagesApart(base, phs) && LoadAll(m, file, base, phs) == (Ok, m0)
    && TableKept(m0, base, dynamic) && Relocated(m0, base, dynamic) == (Ok, m')
  }

  /** That is what loading with relocations does whenever it succeeds. */
  lemma LoadsToIff(m: Cells, file: seq<byte>, base: nat, phs: seq<Phdr>, dynamic: Dynamic, m': Cells)
    requires PagesApart(base, phs) && TableKept(LoadAll(m, file, base, phs).1, base, dynamic)
    ensures LoadRelocated(m, file, base, phs, dynamic) == (Ok, m')
        <==> LoadsTo(m, file, base, phs, dynamic, LoadAll(m, file, base, phs).1, m')
  {
  }

  /** The word in the slot is the file's own word plus the base, modulo 2^64. */
  ghost predicate Rebased(m: Cells, file: seq<byte>, base: nat, ph: Phdr, slot: nat)
    requires InFile(ph, file, slot, 8)
  {
    Readable(m, base + slot, 8) && Word(m, base + slot) == (base + FromLe(FileBytes(ph, file, slot, 8))) % WORD
  }

  /** After loading and relocating, the word in every compressed slot that overlaps no other slot and no
      explicit target is the file's own word plus the base, modulo 2^64. */
  lemma RelocatedSlot(m: Cells, file: seq<byte>, base: nat, phs: seq<Phdr>, dynamic: Dynamic, m0: Cells, m': Cells,
                      i: nat, k: nat)
    requires LoadsTo(m, file, base, phs, dynamic, m0, m') && i < |phs|
    requires k < |SlotsOf(m0, base, dynamic)| && ClearAt(SlotsOf(m0, base, dynamic), k)
    requires Clear(SlotsOf(m0, base, dynamic)[k], Targets(RelasOf(m0, base, dynamic)))
    requires InFile(phs[i], file, SlotsOf(m0, base, dynamic)[k], 8)
    ensures Rebased(m', file, base, phs[i], SlotsOf(m0, base, dynamic)[k])
  {
    DataLoaded(m, file, base, phs, i);
    SlotFromFile(m0, file, base, phs[i], dynamic, m', k);
  }

  lemma SlotFromFile(m0: Cells, file: seq<byte>, base: nat, ph: Phdr, dynamic: Dynamic, m': Cells, k: nat)
    requires TableKept(m0, base, dynamic) && Relocated(m0, base, dynamic) == (Ok, m')
    requires k < |SlotsOf(m0, base, dynamic)| && ClearAt(SlotsOf(m0, base, dynamic), k)
    requires Clear(SlotsOf(m0, base, dynamic)[k], Targets(RelasOf(m0, base, dynamic)))
    requires HasData(m0, file, base, ph) && InFile(ph, file, SlotsOf(m0, base, dynamic)[k], 8)
    ensures Rebased(m', file, base, ph, SlotsOf(m0, base, dynamic)[k])
  {
    var slot := SlotsOf(m0, base, dynamic)[k];
    FileFetched(m0, file, base, ph, slot, 8);
    var m1 := RelocationSucceeds(m0, base, dynamic);
    SlotAfterBoth(m0, base, RelasOf(m0, base, dynamic), m1, SlotsOf(m0, base, dynamic), m', k);
    Rebases(m0, m', file, base, ph, slot);
  }

  lemma Rebases(m0: Cells, m': Cells, file: seq<byte>, base: nat, ph: Phdr, slot: nat)
    requires SlotFixed(m0, m', base, slot) && InFile(ph, file, slot, 8)
    requires Fetch(m0, base + slot, 8) == FileBytes(ph, file, slot, 8)
    ensures Rebased(m', file, base, ph, slot)
  {
  }

  lemma SlotAfterBoth(m0: Cells, base: nat, relas: seq<Rela>, m1: Cells, slots: seq<nat>, m': Cells, k: nat)
    requires RelaAll(m0, base, relas) == (Ok, m1) && FixAll(m1, base, slots) == (Ok, m') && k < |slots|
    requires ClearAt(slots, k) && Clear(slots[k], Targets(relas))
    ensures SlotFixed(m0, m', base, slots[k])
  {
    RelaOutside(m0, base, relas);
    FixOnce(m1, base, slots, k);
    LaterSlot(m0, m1, m', base, Targets(relas), slots[k]);
  }

  /** The target of every explicit RELATIVE entry that no later entry and no compressed slot overlaps is the
      base plus the addend, modulo 2^64. */
  lemma RelocatedTarget(m0: Cells, base: nat, dynamic: Dynamic, m': Cells, k: nat)
    requires TableKept(m0, base, dynamic) && Relocated(m0, base, dynamic) == (Ok, m')
    requires k < |RelasOf(m0, base, dynamic)| && Lasting(RelasOf(m0, base, dynamic), k)
    requires Clear(RelasOf(m0, base, dynamic)[k].offset, SlotsOf(m0, base, dynamic))
    ensures Patched(m', base, RelasOf(m0, base, dynamic)[k])
  {
    var m1 := RelocationSucceeds(m0, base, dynamic);
    TargetAfterBoth(m0, base, RelasOf(m0, base, dynamic), m1, SlotsOf(m0, base, dynamic), m', k);
  }

  lemma TargetAfterBoth(m0: Cells, base: nat, relas: seq<Rela>, m1: Cells, slots: seq<nat>, m': Cells, k: nat)
    requires RelaAll(m0, base, relas) == (Ok, m1) && FixAll(m1, base, slots) == (Ok, m')
    requires k < |relas| && Lasting(relas, k) && Clear(relas[k].offset, slots)
    ensures Patched(m', base, relas[k])
  {
    RelaPatched(m0, base, relas, k);
    FixOutside(m1, base, slots);
    WordKept(m1, m', base, slots, relas[k].offset);
  }

  /** And every byte outside both is still the segment's. */
  lemma RelocatedElsewhere(m: Cells, file: seq<byte>, base: nat, phs: seq<Phdr>, dynamic: Dynamic, m0: Cells,
                           m': Cells, i: nat, x: nat)
    requires LoadsTo(m, file, base, phs, dynamic, m0, m') && i < |phs| && Covers(base, phs[i], x)
    requires Outside(base, Targets(RelasOf(m0, base, dynamic)), x) && Outside(base, SlotsOf(m0, base, dynamic), x)
    ensures x in m' && m'[x] == Cell(SegmentByte(file, base, phs[i], x), Protection(phs[i]))
  {
    MemoryImage(m, file, base, phs, i, x);
    Untold(m0, base, dynamic, m', x);
  }

  lemma Untold(m0: Cells, base: nat, dynamic: Dynamic, m': Cells, x: nat)
    requires TableKept(m0, base, dynamic) && Relocated(m0, base, dynamic) == (Ok, m') && x in m0
    requires Outside(base, Targets(RelasOf(m0, base, dynamic)), x) && Outside(base, SlotsOf(m0, base, dynamic), x)
    ensures x in m' && m'[x] == m0[x]
  {
    var m1 := RelocationSucceeds(m0, base, dynamic);
    RelaOutside(m0, base, RelasOf(m0, base, dynamic));
    FixOutside(m1, base, SlotsOf(m0, base, dynamic));
  }
}
