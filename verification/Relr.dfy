/** Relative relocations: the compressed word/bitmap stream (the Relative Relocation Table of the
    System V generic ABI) against the plain list of slots it stands for, and against the explicit
    RELATIVE entries of a RELA table. Machine words are 64 bits wide. */
module Relr {
  import opened Bytes
  import opened Memory

  // ----- what a stream denotes -----

  /** The slots of a bitmap shifted down to start at `addr`. */
  function BitSlots(bitmap: nat, addr: nat): seq<nat> {
    if bitmap == 0 then []
    else (if bitmap % 2 == 1 then [addr % WORD] else []) + BitSlots(bitmap / 2, addr + 8)
  }

  /** The slots of a stream, in order, with `cur` the current address: an even word is a slot, an odd
      one a bitmap over the 63 words from the current address on. */
  function Slots(words: seq<nat>, cur: nat): seq<nat> {
    if words == [] then []
    else if words[0] % 2 == 0 then [words[0]] + Slots(words[1..], (words[0] + 8) % WORD)
    else BitSlots(words[0] / 2, cur) + Slots(words[1..], (cur + 63 * 8) % WORD)
  }

  predicate Bit(w: nat, i: nat) {
    if i == 0 then w % 2 == 1 else Bit(w / 2, i - 1)
  }

  function SlotAt(addr: nat, i: nat): nat { (addr + 8 * i) % WORD }

  /** A bitmap marks exactly the words whose bit is set. */
  lemma {:induction false} BitSlotsDenote(bitmap: nat, addr: nat, a: nat)
    ensures a in BitSlots(bitmap, addr) <==> exists i: nat :: Bit(bitmap, i) && a == SlotAt(addr, i)
    decreases bitmap
  {
    if bitmap == 0 {
      forall i: nat ensures !Bit(bitmap, i) { NoBits(i); }
    } else {
      var head, tail := if bitmap % 2 == 1 then [SlotAt(addr, 0)] else [], BitSlots(bitmap / 2, addr + 8);
      assert BitSlots(bitmap, addr) == head + tail;
      BitSlotsDenote(bitmap / 2, addr + 8, a);
      forall i: nat | Bit(bitmap, i) && a == SlotAt(addr, i) ensures a in head || a in tail {
        if i > 0 {
          Shift(addr, i - 1);
          assert Bit(bitmap / 2, i - 1) && a == SlotAt(addr + 8, i - 1);
        }
      }
      if a in tail {
        var j: nat :| Bit(bitmap / 2, j) && a == SlotAt(addr + 8, j);
        Shift(addr, j);
        assert Bit(bitmap, j + 1) && a == SlotAt(addr, j + 1);
      } else if a in head {
        assert Bit(bitmap, 0);
      }
    }
  }

  lemma Shift(addr: nat, i: nat)
    ensures SlotAt(addr + 8, i) == SlotAt(addr, i + 1)
  {
  }

  lemma {:induction false} NoBits(i: nat)
    ensures !Bit(0, i)
  {
    if i > 0 { NoBits(i - 1); }
  }

  // ----- fixing slots one after the other -----

  /** Add the base to the word in one slot. */
  function FixSlot(m: Cells, base: nat, slot: nat): (Outcome, Cells) {
    var a := base + slot;
    if a >= WORD then (InvalidProgramHeader, m)
    else if !Readable(m, a, 8) || !Writable(m, a, 8) then (Fault, m)
    else (Ok, PokeWord(m, a, (base + Word(m, a)) % WORD))
  }

  function FixAll(m: Cells, base: nat, slots: seq<nat>): (Outcome, Cells)
    decreases |slots|
  {
    if slots == [] then (Ok, m)
    else
      var (r, m1) := FixSlot(m, base, slots[0]);
      if r != Ok then (r, m1) else FixAll(m1, base, slots[1..])
  }

  lemma {:induction false} FixConcat(m: Cells, base: nat, a: seq<nat>, b: seq<nat>)
    ensures FixAll(m, base, a + b) ==
      var (r, m1) := FixAll(m, base, a); if r != Ok then (r, m1) else FixAll(m1, base, b)
    decreases |a|
  {
    if a == [] {
      assert a + b == b;
    } else {
      assert (a + b)[1..] == a[1..] + b;
      var (r, m1) := FixSlot(m, base, a[0]);
      if r == Ok { FixConcat(m1, base, a[1..], b); }
    }
  }

  /** The words of a byte string. */
  function Words(bs: seq<byte>): seq<nat> {
    if |bs| < 8 then [] else [FromLe(bs[..8])] + Words(bs[8..])
  }

  /** Relocate one slot in place: read the word, add the base modulo 2^64, write it back. */
  method Relocate(mem: Space, base: nat, slot: nat) returns (r: Outcome)
    modifies mem
    ensures (r, mem.cells) == FixSlot(old(mem.cells), base, slot)
  {
    var target := base + slot;
    if target >= WORD { return InvalidProgramHeader; }
    var data;
    r, data := mem.Read(target, 8);
    if r != Ok { return; }
    r := mem.Write(target, ToLe((base + FromLe(data)) % WORD, 8));
  }

  lemma BitSet(m: Cells, base: nat, bitmap: nat, addr: nat, r: Outcome, m1: Cells)
    requires bitmap % 2 == 1 && (r, m1) == FixSlot(m, base, addr % WORD)
    ensures FixAll(m, base, BitSlots(bitmap, addr)) ==
      if r != Ok then (r, m1) else FixAll(m1, base, BitSlots(bitmap / 2, addr + 8))
  {
    SlotFirst(m, base, addr % WORD, BitSlots(bitmap / 2, addr + 8));
  }

  lemma BitClear(bitmap: nat, addr: nat)
    requires bitmap != 0 && bitmap % 2 == 0
    ensures BitSlots(bitmap, addr) == BitSlots(bitmap / 2, addr + 8)
  {
  }

  /** The bitmap loop: one bit at a time, up to the highest one set. */
  method ApplyBitmap(mem: Space, base: nat, word: nat, cur: nat) returns (r: Outcome)
    modifies mem
    ensures (r, mem.cells) == FixAll(old(mem.cells), base, BitSlots(word / 2, cur))
  {
    var bitmap: nat, i: nat := word / 2, 0;
    r := Ok;
    while bitmap != 0
      invariant r == Ok
      invariant FixAll(old(mem.cells), base, BitSlots(word / 2, cur)) ==
        FixAll(mem.cells, base, BitSlots(bitmap, cur + 8 * i))
      decreases bitmap
    {
      assert cur + 8 * i + 8 == cur + 8 * (i + 1);
      if bitmap % 2 == 1 {
        ghost var now := mem.cells;
        r := Relocate(mem, base, (cur + 8 * i) % WORD);
        BitSet(now, base, bitmap, cur + 8 * i, r, mem.cells);
        if r != Ok { return; }
      } else {
        BitClear(bitmap, cur + 8 * i);
      }
      bitmap := bitmap / 2;
      i := i + 1;
    }
  }

  /** The loop over the stream. */
  method ApplyWords(mem: Space, base: nat, words: seq<nat>) returns (r: Outcome)
    modifies mem
    ensures (r, mem.cells) == FixAll(old(mem.cells), base, Slots(words, 0))
  {
    var cur: nat, i: nat := 0, 0;
    r := Ok;
    while i < |words|
      invariant 0 <= i <= |words| && r == Ok
      invariant FixAll(old(mem.cells), base, Slots(words, 0)) == FixAll(mem.cells, base, Slots(words[i..], cur))
    {
      var word := words[i];
      assert words[i..][1..] == words[i + 1..];
      if word % 2 == 0 {
        SlotFirst(mem.cells, base, word, Slots(words[i + 1..], (word + 8) % WORD));
        r := Relocate(mem, base, word);
        if r != Ok { return; }
        cur := (word + 8) % WORD;
      } else {
        FixConcat(mem.cells, base, BitSlots(word / 2, cur), Slots(words[i + 1..], (cur + 63 * 8) % WORD));
        r := ApplyBitmap(mem, base, word, cur);
        if r != Ok { return; }
        cur := (cur + 63 * 8) % WORD;
      }
      i := i + 1;
    }
    assert words[i..] == [];
  }

  lemma SlotFirst(m: Cells, base: nat, slot: nat, rest: seq<nat>)
    ensures FixAll(m, base, [slot] + rest) ==
      var (r, m1) := FixSlot(m, base, slot); if r != Ok then (r, m1) else FixAll(m1, base, rest)
  {
    assert ([slot] + rest)[1..] == rest;
  }

  function RelrCells(m: Cells, base: nat, relrVaddr: nat, relrSize: nat): (Outcome, Cells) {
    if relrSize % 8 != 0 then (InvalidProgramHeader, m)
    else if !Readable(m, base + relrVaddr, relrSize) then (Fault, m)
    else FixAll(m, base, Slots(Words(Fetch(m, base + relrVaddr, relrSize)), 0))
  }

  /** The compressed table, applied in place: memory ends as if every slot the stream denotes had been
      fixed in turn, up to the first one that cannot be. The table itself is read beforehand. */
  method ApplyRelr(mem: Space, base: nat, relrVaddr: nat, relrSize: nat) returns (r: Outcome)
    modifies mem
    ensures (r, mem.cells) == RelrCells(old(mem.cells), base, relrVaddr, relrSize)
  {
    if relrSize % 8 != 0 { return InvalidProgramHeader; }
    var bytes;
    r, bytes := mem.Read(base + relrVaddr, relrSize);
    if r != Ok { return; }
    r := ApplyWords(mem, base, Words(bytes));
  }

  // ----- what fixing means when slots do not overlap -----

  ghost predicate Apart(slots: seq<nat>) {
    forall i, j :: 0 <= i < j < |slots| ==> slots[i] + 8 <= slots[j] || slots[j] + 8 <= slots[i]
  }

  predicate Fixable(m: Cells, base: nat, slot: nat) {
    base + slot < WORD && Readable(m, base + slot, 8) && Writable(m, base + slot, 8)
  }

  predicate InSlot(base: nat, slot: nat, x: nat) { base + slot <= x < base + slot + 8 }

  ghost predicate SameMap(m: Cells, m': Cells) {
    m'.Keys == m.Keys && forall x :: x in m ==> m'[x].prot == m[x].prot
  }

  ghost predicate Outside(base: nat, slots: seq<nat>, x: nat) {
    forall k :: 0 <= k < |slots| ==> !InSlot(base, slots[k], x)
  }

  /** Nothing outside the slots has changed, and no protection. */
  ghost predicate SameOutside(m: Cells, m': Cells, base: nat, slots: seq<nat>) {
    SameMap(m, m') && forall x :: x in m && Outside(base, slots, x) ==> m'[x] == m[x]
  }

  ghost predicate SlotFixed(m: Cells, m': Cells, base: nat, slot: nat) {
    && Fixable(m, base, slot) && Readable(m', base + slot, 8)
    && Word(m', base + slot) == (base + Word(m, base + slot)) % WORD
  }

  /** Every slot has had the base added once, modulo 2^64, and nothing else has changed. */
  ghost predicate AllFixed(m: Cells, m': Cells, base: nat, slots: seq<nat>) {
    SameOutside(m, m', base, slots) && forall k :: 0 <= k < |slots| ==> SlotFixed(m, m', base, slots[k])
  }

  /** A slot that overlaps none of the others. */
  ghost predicate Clear(slot: nat, slots: seq<nat>) {
    forall k :: 0 <= k < |slots| ==> slot + 8 <= slots[k] || slots[k] + 8 <= slot
  }

  lemma WordKept(m: Cells, m': Cells, base: nat, slots: seq<nat>, slot: nat)
    requires SameOutside(m, m', base, slots) && Clear(slot, slots) && Mapped(m, base + slot, 8)
    ensures Mapped(m', base + slot, 8) && Word(m', base + slot) == Word(m, base + slot)
    ensures Readable(m, base + slot, 8) ==> Readable(m', base + slot, 8)
  {
    forall x | base + slot <= x < base + slot + 8 ensures m'[x] == m[x] {
      assert Outside(base, slots, x);
    }
    assert Fetch(m', base + slot, 8) == Fetch(m, base + slot, 8);
  }

  lemma FixSlotIs(m: Cells, base: nat, slot: nat)
    requires Fixable(m, base, slot)
    ensures FixSlot(m, base, slot).0 == Ok
    ensures SameOutside(m, FixSlot(m, base, slot).1, base, [slot]) && SlotFixed(m, FixSlot(m, base, slot).1, base, slot)
  {
    var v := (base + Word(m, base + slot)) % WORD;
    PokeWordReads(m, base + slot, v);
    PokeOutside(m, base, slot, v);
  }

  lemma PokeOutside(m: Cells, base: nat, slot: nat, v: nat)
    ensures SameOutside(m, PokeWord(m, base + slot, v), base, [slot])
  {
    forall x | x in m && Outside(base, [slot], x) ensures !(base + slot <= x < base + slot + 8) {
      assert !InSlot(base, [slot][0], x);
    }
  }

  predicate AllFixable(m: Cells, base: nat, slots: seq<nat>) {
    forall k :: 0 <= k < |slots| ==> Fixable(m, base, slots[k])
  }

  lemma AllFixableCons(m: Cells, base: nat, slots: seq<nat>)
    requires slots != []
    ensures AllFixable(m, base, slots) <==> Fixable(m, base, slots[0]) && AllFixable(m, base, slots[1..])
  {
    var rest := slots[1..];
    forall k | 0 <= k < |rest| ensures rest[k] == slots[k + 1] {}
    if AllFixable(m, base, slots) {
      forall k | 0 <= k < |rest| ensures Fixable(m, base, rest[k]) { assert Fixable(m, base, slots[k + 1]); }
    } else if Fixable(m, base, slots[0]) {
      var k :| 0 <= k < |slots| && !Fixable(m, base, slots[k]);
      assert !Fixable(m, base, rest[k - 1]);
    }
  }

  /** Whether slots can be fixed depends on the protections only. */
  lemma SameFixable(m: Cells, m1: Cells, base: nat, slots: seq<nat>)
    requires SameMap(m, m1)
    ensures AllFixable(m, base, slots) <==> AllFixable(m1, base, slots)
  {
    forall k | 0 <= k < |slots| ensures Fixable(m, base, slots[k]) <==> Fixable(m1, base, slots[k]) {}
  }

  lemma ApartTail(slots: seq<nat>)
    requires slots != [] && Apart(slots)
    ensures Apart(slots[1..]) && Clear(slots[0], slots[1..])
  {
    var rest := slots[1..];
    forall i, j | 0 <= i < j < |rest| ensures rest[i] + 8 <= rest[j] || rest[j] + 8 <= rest[i] {
      assert rest[i] == slots[i + 1] && rest[j] == slots[j + 1];
    }
    forall k | 0 <= k < |rest| ensures slots[0] + 8 <= rest[k] || rest[k] + 8 <= slots[0] {
      assert rest[k] == slots[k + 1];
    }
  }

  lemma FixFirst(m: Cells, base: nat, slots: seq<nat>) returns (m1: Cells)
    requires slots != [] && Fixable(m, base, slots[0])
    ensures SameOutside(m, m1, base, [slots[0]]) && SlotFixed(m, m1, base, slots[0])
    ensures FixSlot(m, base, slots[0]) == (Ok, m1) && FixAll(m, base, slots) == FixAll(m1, base, slots[1..])
    ensures AllFixable(m, base, slots[1..]) <==> AllFixable(m1, base, slots[1..])
  {
    m1 := FixSlot(m, base, slots[0]).1;
    FixSlotIs(m, base, slots[0]);
    SameFixable(m, m1, base, slots[1..]);
  }

  /** A word that only other fixups came before is fixed as if they had not. */
  lemma LaterSlot(m: Cells, m1: Cells, m2: Cells, base: nat, others: seq<nat>, slot: nat)
    requires SameOutside(m, m1, base, others) && Clear(slot, others) && Fixable(m, base, slot)
    requires SlotFixed(m1, m2, base, slot)
    ensures SlotFixed(m, m2, base, slot)
  {
    WordKept(m, m1, base, others, slot);
  }

  lemma OutsideBoth(m: Cells, m1: Cells, m2: Cells, base: nat, slots: seq<nat>)
    requires slots != [] && SameOutside(m, m1, base, [slots[0]]) && SameOutside(m1, m2, base, slots[1..])
    ensures SameOutside(m, m2, base, slots)
  {
    forall x | x in m && Outside(base, slots, x) ensures m2[x] == m[x] {
      assert !InSlot(base, slots[0], x);
      OutsideTail(base, slots, x);
    }
  }

  lemma OutsideTail(base: nat, slots: seq<nat>, x: nat)
    requires slots != [] && Outside(base, slots, x)
    ensures Outside(base, slots[1..], x)
  {
    forall k | 0 <= k < |slots[1..]| ensures !InSlot(base, slots[1..][k], x) {
      assert slots[1..][k] == slots[k + 1];
    }
  }

  /** Fixing succeeds exactly when every slot can be fixed, overlaps or not. */
  lemma {:induction false} FixSucceeds(m: Cells, base: nat, slots: seq<nat>)
    ensures FixAll(m, base, slots).0 == Ok <==> AllFixable(m, base, slots)
    decreases |slots|
  {
    if slots != [] {
      AllFixableCons(m, base, slots);
      if Fixable(m, base, slots[0]) {
        var m1 := FixSlot(m, base, slots[0]).1;
        FixSlotIs(m, base, slots[0]);
        FixSucceeds(m1, base, slots[1..]);
        SameFixable(m, m1, base, slots[1..]);
      }
    }
  }

  /** However far it gets, it changes nothing outside the slots. */
  lemma {:induction false} FixOutside(m: Cells, base: nat, slots: seq<nat>)
    ensures SameOutside(m, FixAll(m, base, slots).1, base, slots)
    decreases |slots|
  {
    if slots != [] && Fixable(m, base, slots[0]) {
      var m1 := FixSlot(m, base, slots[0]).1;
      FixSlotIs(m, base, slots[0]);
      FixOutside(m1, base, slots[1..]);
      OutsideBoth(m, m1, FixAll(m, base, slots).1, base, slots);
    }
  }

  /** The slot at index `k` overlaps no other. */
  ghost predicate ClearAt(slots: seq<nat>, k: nat)
    requires k < |slots|
  {
    forall j :: 0 <= j < |slots| && j != k ==> slots[k] + 8 <= slots[j] || slots[j] + 8 <= slots[k]
  }

  /** A slot that overlaps no other is fixed once, whatever the others do to each other. */
  lemma {:induction false} FixOnce(m: Cells, base: nat, slots: seq<nat>, k: nat)
    requires k < |slots| && ClearAt(slots, k) && FixAll(m, base, slots).0 == Ok
    ensures SlotFixed(m, FixAll(m, base, slots).1, base, slots[k])
    decreases |slots|
  {
    var rest := slots[1..];
    FixSucceeds(m, base, slots);
    var m1 := FixFirst(m, base, slots);
    ClearTail(slots, k);
    if k == 0 {
      StaysFixed(m, m1, base, slots[0], rest);
    } else {
      FixOnce(m1, base, rest, k - 1);
      LaterSlot(m, m1, FixAll(m1, base, rest).1, base, [slots[0]], slots[k]);
    }
  }

  lemma ClearTail(slots: seq<nat>, k: nat)
    requires k < |slots| && ClearAt(slots, k)
    ensures k == 0 ==> Clear(slots[0], slots[1..])
    ensures k > 0 ==> ClearAt(slots[1..], k - 1) && slots[1..][k - 1] == slots[k] && Clear(slots[k], [slots[0]])
  {
    var rest := slots[1..];
    forall j | 0 <= j < |rest| ensures rest[j] == slots[j + 1] {}
  }

  lemma StaysFixed(m: Cells, m1: Cells, base: nat, slot: nat, rest: seq<nat>)
    requires SlotFixed(m, m1, base, slot) && Clear(slot, rest)
    ensures SlotFixed(m, FixAll(m1, base, rest).1, base, slot)
  {
    FixOutside(m1, base, rest);
    WordKept(m1, FixAll(m1, base, rest).1, base, rest, slot);
  }

  /** On slots that do not overlap, fixing them in turn succeeds exactly when each of them can be
      fixed, and is then one simultaneous addition. */
  lemma FixApart(m: Cells, base: nat, slots: seq<nat>)
    requires Apart(slots)
    ensures FixAll(m, base, slots).0 == Ok <==> AllFixable(m, base, slots)
    ensures FixAll(m, base, slots).0 == Ok ==> AllFixed(m, FixAll(m, base, slots).1, base, slots)
  {
    FixSucceeds(m, base, slots);
    FixOutside(m, base, slots);
    if FixAll(m, base, slots).0 == Ok {
      forall k | 0 <= k < |slots| ensures SlotFixed(m, FixAll(m, base, slots).1, base, slots[k]) {
        FixOnce(m, base, slots, k);
      }
    }
  }

  // ----- well-formed streams do not overlap -----

  /** Address entries never go below the current address, and the current address never wraps. */
  predicate Climbs(words: seq<nat>, cur: nat) {
    words != [] ==>
      if words[0] % 2 == 0 then cur <= words[0] && words[0] + 8 < WORD && Climbs(words[1..], words[0] + 8)
      else words[0] < WORD && cur + 63 * 8 < WORD && Climbs(words[1..], cur + 63 * 8)
  }

  /** Increasing, at least 8 apart, from `lo` up and ending by `hi`. */
  ghost predicate Rising(slots: seq<nat>, lo: nat, hi: nat) {
    && (forall i :: 0 <= i < |slots| ==> lo <= slots[i] && slots[i] + 8 <= hi)
    && (forall i, j :: 0 <= i < j < |slots| ==> slots[i] + 8 <= slots[j])
  }

  lemma RisingConcat(a: seq<nat>, b: seq<nat>, lo: nat, mid: nat, hi: nat)
    requires lo <= mid <= hi && Rising(a, lo, mid) && Rising(b, mid, hi)
    ensures Rising(a + b, lo, hi)
  {
    var c := a + b;
    forall i | 0 <= i < |c| ensures lo <= c[i] && c[i] + 8 <= hi {}
    forall i, j | 0 <= i < j < |c| ensures c[i] + 8 <= c[j] {
      if j < |a| {
        assert a[i] + 8 <= a[j];
      } else if i >= |a| {
        assert b[i - |a|] + 8 <= b[j - |a|];
      }
    }
  }

  lemma {:induction false} BitSlotsRise(bitmap: nat, addr: nat, n: nat)
    requires bitmap < Pow2(n) && addr + 8 * n < WORD
    ensures Rising(BitSlots(bitmap, addr), addr, addr + 8 * n)
    decreases n
  {
    if bitmap != 0 {
      var head, tail := if bitmap % 2 == 1 then [addr] else [], BitSlots(bitmap / 2, addr + 8);
      NoWrap(addr);
      assert BitSlots(bitmap, addr) == head + tail;
      BitSlotsRise(bitmap / 2, addr + 8, n - 1);
      assert addr + 8 + 8 * (n - 1) == addr + 8 * n;
      assert Rising(head, addr, addr + 8);
      RisingConcat(head, tail, addr, addr + 8, addr + 8 * n);
    }
  }

  lemma Pow63()
    ensures 2 * Pow2(63) == WORD
  {
    assert Pow2(3) == 8 && Pow2(7) == 16 * Pow2(3);
    EightMore(7);
    EightMore(15);
    EightMore(23);
    EightMore(31);
    EightMore(39);
    EightMore(47);
    EightMore(55);
  }

  lemma EightMore(n: nat)
    ensures Pow2(n + 8) == 256 * Pow2(n)
  {
    assert Pow2(n + 4) == 16 * Pow2(n) by { assert Pow2(n + 2) == 4 * Pow2(n); }
    assert Pow2(n + 6) == 4 * Pow2(n + 4);
  }

  lemma NoWrap(x: nat)
    requires x < WORD
    ensures x % WORD == x
  {
  }

  lemma {:induction false} SlotsRise(words: seq<nat>, cur: nat)
    requires Climbs(words, cur) && cur < WORD
    ensures Rising(Slots(words, cur), cur, WORD)
    decreases |words|
  {
    if words != [] {
      var next := if words[0] % 2 == 0 then words[0] + 8 else cur + 63 * 8;
      var head := if words[0] % 2 == 0 then [words[0]] else BitSlots(words[0] / 2, cur);
      NoWrap(next);
      assert Slots(words, cur) == head + Slots(words[1..], next);
      SlotsRise(words[1..], next);
      if words[0] % 2 == 1 {
        Pow63();
        BitSlotsRise(words[0] / 2, cur, 63);
      }
      RisingConcat(head, Slots(words[1..], next), cur, next, WORD);
    }
  }

  /** The whole decoder on a well-formed stream: it succeeds exactly when every slot denoted can be
      fixed, and then adds the base, modulo 2^64, exactly once to each of them and changes nothing
      else. */
  lemma RelrMeaning(m: Cells, base: nat, words: seq<nat>)
    requires Climbs(words, 0)
    ensures var slots := Slots(words, 0); var (r, m') := FixAll(m, base, slots);
      && Apart(slots)
      && (r == Ok <==> AllFixable(m, base, slots))
      && (r == Ok ==> AllFixed(m, m', base, slots))
  {
    SlotsRise(words, 0);
    FixApart(m, base, Slots(words, 0));
  }

  // ----- the explicit table -----

  /** A word read as a signed addend. */
  function Signed(w: nat): int { if w < WORD / 2 then w else w - WORD }

  datatype Rela = Rela(relative: bool, offset: nat, addend: int)

  /** R_X86_64_RELATIVE, in the low half of r_info. */
  const RELATIVE: nat := 8

  /** The 24-byte entries of a RELA table; a partial one at the end is not an entry. */
  function Relas(bs: seq<byte>): seq<Rela> {
    if |bs| < 24 then []
    else
      [Rela(FromLe(bs[8..16]) % 0x1_0000_0000 == RELATIVE, FromLe(bs[..8]), Signed(FromLe(bs[16..24])))] +
        Relas(bs[24..])
  }

  function WriteRela(m: Cells, base: nat, rela: Rela): (Outcome, Cells) {
    var a := base + rela.offset;
    if !rela.relative then (Ok, m)
    else if a >= WORD then (InvalidProgramHeader, m)
    else if !Writable(m, a, 8) then (Fault, m)
    else (Ok, PokeWord(m, a, (base + rela.addend) % WORD))
  }

  function RelaAll(m: Cells, base: nat, relas: seq<Rela>): (Outcome, Cells)
    decreases |relas|
  {
    if relas == [] then (Ok, m)
    else
      var (r, m1) := WriteRela(m, base, relas[0]);
      if r != Ok then (r, m1) else RelaAll(m1, base, relas[1..])
  }

  // What a RELA table leaves behind, entry by entry.

  function Targets(relas: seq<Rela>): seq<nat> {
    if relas == [] then []
    else (if relas[0].relative then [relas[0].offset] else []) + Targets(relas[1..])
  }

  predicate Patchable(m: Cells, base: nat, rela: Rela) {
    rela.relative ==> base + rela.offset < WORD && Writable(m, base + rela.offset, 8)
  }

  predicate AllPatchable(m: Cells, base: nat, relas: seq<Rela>) {
    forall k :: 0 <= k < |relas| ==> Patchable(m, base, relas[k])
  }

  /** The target of a RELATIVE entry holds the base plus the addend, modulo 2^64. */
  predicate Patched(m: Cells, base: nat, rela: Rela) {
    Mapped(m, base + rela.offset, 8) && Word(m, base + rela.offset) == (base + rela.addend) % WORD
  }

  /** A RELATIVE entry whose target no later one overlaps. */
  ghost predicate Lasting(relas: seq<Rela>, k: nat)
    requires k < |relas|
  {
    relas[k].relative && Clear(relas[k].offset, Targets(relas[k + 1..]))
  }

  lemma PokePatches(m: Cells, base: nat, rela: Rela)
    requires Mapped(m, base + rela.offset, 8)
    ensures Patched(PokeWord(m, base + rela.offset, (base + rela.addend) % WORD), base, rela)
  {
    PokeWordReads(m, base + rela.offset, (base + rela.addend) % WORD);
  }

  lemma WriteRelaIs(m: Cells, base: nat, rela: Rela)
    ensures var (r, m') := WriteRela(m, base, rela);
      && (r == Ok <==> Patchable(m, base, rela))
      && SameOutside(m, m', base, if rela.relative then [rela.offset] else [])
      && (r == Ok && rela.relative ==> Patched(m', base, rela))
  {
    if rela.relative && Patchable(m, base, rela) {
      PokePatches(m, base, rela);
      PokeOutside(m, base, rela.offset, (base + rela.addend) % WORD);
    }
  }

  /** Applying a table succeeds exactly when every RELATIVE target is below 2^64 and writable. */
  lemma {:induction false} RelaSucceeds(m: Cells, base: nat, relas: seq<Rela>)
    ensures RelaAll(m, base, relas).0 == Ok <==> AllPatchable(m, base, relas)
    decreases |relas|
  {
    if relas != [] {
      var m1 := WriteRela(m, base, relas[0]).1;
      WriteRelaIs(m, base, relas[0]);
      RelaSucceeds(m1, base, relas[1..]);
      PatchableTail(m, m1, base, relas);
    }
  }

  lemma PatchableTail(m: Cells, m1: Cells, base: nat, relas: seq<Rela>)
    requires relas != [] && SameMap(m, m1)
    ensures AllPatchable(m, base, relas) <==> Patchable(m, base, relas[0]) && AllPatchable(m1, base, relas[1..])
  {
    var rest := relas[1..];
    forall k | 0 <= k < |rest| ensures Patchable(m1, base, rest[k]) <==> Patchable(m, base, relas[k + 1]) {}
    if Patchable(m, base, relas[0]) && AllPatchable(m1, base, rest) {
      forall k | 0 <= k < |relas| ensures Patchable(m, base, relas[k]) {
        if k > 0 { assert Patchable(m1, base, rest[k - 1]); }
      }
    }
  }

  /** However far it gets, it changes nothing outside the targets. */
  lemma {:induction false} RelaOutside(m: Cells, base: nat, relas: seq<Rela>)
    ensures SameOutside(m, RelaAll(m, base, relas).1, base, Targets(relas))
    decreases |relas|
  {
    if relas != [] {
      var (r, m1) := WriteRela(m, base, relas[0]);
      var head, tail := if relas[0].relative then [relas[0].offset] else [], Targets(relas[1..]);
      WriteRelaIs(m, base, relas[0]);
      RelaOutside(m1, base, relas[1..]);
      if r == Ok {
        OutsideConcat(m, m1, RelaAll(m, base, relas).1, base, head, tail);
      } else {
        OutsideConcat(m, m1, m1, base, head, tail);
      }
    }
  }

  lemma OutsideConcat(m: Cells, m1: Cells, m2: Cells, base: nat, a: seq<nat>, b: seq<nat>)
    requires SameOutside(m, m1, base, a) && SameOutside(m1, m2, base, b)
    ensures SameOutside(m, m2, base, a + b)
  {
    forall x | x in m && Outside(base, a + b, x) ensures m2[x] == m[x] {
      forall k | 0 <= k < |a| ensures !InSlot(base, a[k], x) { assert (a + b)[k] == a[k]; }
      forall k | 0 <= k < |b| ensures !InSlot(base, b[k], x) { assert (a + b)[|a| + k] == b[k]; }
    }
  }

  /** And every entry whose target no later one overlaps has its value in place. */
  lemma {:induction false} RelaPatched(m: Cells, base: nat, relas: seq<Rela>, k: nat)
    requires RelaAll(m, base, relas).0 == Ok && k < |relas| && Lasting(relas, k)
    ensures Patched(RelaAll(m, base, relas).1, base, relas[k])
    decreases |relas|
  {
    var m1 := WriteRela(m, base, relas[0]).1;
    if k == 0 {
      WriteRelaIs(m, base, relas[0]);
      StaysPatched(m1, base, relas[0], relas[1..]);
    } else {
      assert relas[1..][k..] == relas[k + 1..] && relas[1..][k - 1] == relas[k];
      RelaPatched(m1, base, relas[1..], k - 1);
    }
  }

  lemma StaysPatched(m: Cells, base: nat, rela: Rela, rest: seq<Rela>)
    requires Patched(m, base, rela) && Clear(rela.offset, Targets(rest))
    ensures Patched(RelaAll(m, base, rest).1, base, rela)
  {
    RelaOutside(m, base, rest);
    WordKept(m, RelaAll(m, base, rest).1, base, Targets(rest), rela.offset);
  }

  /** What an explicit table means. */
  lemma RelaMeaning(m: Cells, base: nat, relas: seq<Rela>)
    ensures var (r, m') := RelaAll(m, base, relas);
      && (r == Ok <==> AllPatchable(m, base, relas))
      && SameOutside(m, m', base, Targets(relas))
      && (r == Ok ==> forall k :: 0 <= k < |relas| && Lasting(relas, k) ==> Patched(m', base, relas[k]))
  {
    RelaSucceeds(m, base, relas);
    RelaOutside(m, base, relas);
    if RelaAll(m, base, relas).0 == Ok {
      forall k | 0 <= k < |relas| && Lasting(relas, k) ensures Patched(RelaAll(m, base, relas).1, base, relas[k]) {
        RelaPatched(m, base, relas, k);
      }
    }
  }

  /** With all targets apart, every RELATIVE entry is lasting. */
  lemma {:induction false} ApartLasts(relas: seq<Rela>, k: nat)
    requires Apart(Targets(relas)) && k < |relas| && relas[k].relative
    ensures Lasting(relas, k)
    decreases |relas|
  {
    var slots := Targets(relas);
    if relas[0].relative {
      ApartTail(slots);
      assert slots[1..] == Targets(relas[1..]);
    } else {
      assert slots == Targets(relas[1..]);
    }
    if k > 0 {
      assert relas[1..][k..] == relas[k + 1..] && relas[1..][k - 1] == relas[k];
      ApartLasts(relas[1..], k - 1);
    }
  }

  /** The RELATIVE fixups of a RELA table, applied in place; other types are skipped. */
  method ApplyRela(mem: Space, base: nat, relas: seq<Rela>) returns (r: Outcome)
    modifies mem
    ensures (r, mem.cells) == RelaAll(old(mem.cells), base, relas)
  {
    r := Ok;
    var i := 0;
    while i < |relas|
      invariant 0 <= i <= |relas| && r == Ok
      invariant RelaAll(old(mem.cells), base, relas) == RelaAll(mem.cells, base, relas[i..])
    {
      var rela := relas[i];
      assert relas[i..][1..] == relas[i + 1..];
      if rela.relative {
        if base + rela.offset >= WORD { return InvalidProgramHeader; }
        r := mem.Write(base + rela.offset, ToLe((base + rela.addend) % WORD, 8));
        if r != Ok { return; }
      }
      i := i + 1;
    }
    assert relas[i..] == [];
  }

  /** The explicit entry with the stored word as addend. */
  function RelaOf(m: Cells, base: nat, slot: nat): Rela
    requires Fixable(m, base, slot)
  {
    Rela(true, slot, Signed(Word(m, base + slot)))
  }

  function AsRela(m: Cells, base: nat, slots: seq<nat>): seq<Rela>
    requires AllFixable(m, base, slots)
  {
    if slots == [] then []
    else
      AllFixableCons(m, base, slots);
      [RelaOf(m, base, slots[0])] + AsRela(m, base, slots[1..])
  }

  lemma RelaFixesSlot(m: Cells, base: nat, slot: nat)
    requires Fixable(m, base, slot)
    ensures WriteRela(m, base, RelaOf(m, base, slot)) == FixSlot(m, base, slot)
  {
    SignedAdds(base, Word(m, base + slot));
  }

  lemma SignedAdds(base: nat, w: nat)
    ensures (base + Signed(w)) % WORD == (base + w) % WORD
  {
  }

  /** A fixed slot leaves the entries for the other slots as they were. */
  lemma {:induction false} SameEntries(m: Cells, m1: Cells, base: nat, slot: nat, slots: seq<nat>)
    requires SameOutside(m, m1, base, [slot]) && Clear(slot, slots)
    requires AllFixable(m, base, slots) && AllFixable(m1, base, slots)
    ensures AsRela(m1, base, slots) == AsRela(m, base, slots)
    decreases |slots|
  {
    if slots != [] {
      AllFixableCons(m, base, slots);
      AllFixableCons(m1, base, slots);
      var rest := slots[1..];
      forall k | 0 <= k < |rest| ensures slot + 8 <= rest[k] || rest[k] + 8 <= slot { assert rest[k] == slots[k + 1]; }
      SameEntries(m, m1, base, slot, rest);
      WordKept(m, m1, base, [slot], slots[0]);
    }
  }

  /** Both formats agree: fixing the slots of a compressed table is applying the RELATIVE entries whose
      addends are the words stored in those slots. */
  lemma {:induction false} RelrIsRela(m: Cells, base: nat, slots: seq<nat>)
    requires Apart(slots) && AllFixable(m, base, slots)
    ensures RelaAll(m, base, AsRela(m, base, slots)) == FixAll(m, base, slots)
    decreases |slots|
  {
    if slots != [] {
      AllFixableCons(m, base, slots);
      var m1 := FixFirst(m, base, slots);
      ApartTail(slots);
      SameEntries(m, m1, base, slots[0], slots[1..]);
      RelrIsRela(m1, base, slots[1..]);
      RelaFixesSlot(m, base, slots[0]);
      RelaStep(m, base, RelaOf(m, base, slots[0]), AsRela(m, base, slots[1..]), m1);
    }
  }

  lemma RelaStep(m: Cells, base: nat, rela: Rela, rest: seq<Rela>, m1: Cells)
    requires WriteRela(m, base, rela) == (Ok, m1)
    ensures RelaAll(m, base, [rela] + rest) == RelaAll(m1, base, rest)
  {
    assert ([rela] + rest)[1..] == rest;
  }
}
