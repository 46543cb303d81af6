/** The byte formats of the dynamic table and of both relocation tables, by position and by an encoder that
    the decoders undo. */
module TableBytes {
  import opened Bytes
  import opened Memory
  import opened Relr
  import opened Relocations

  // ----- explicit entries: 8 bytes offset, 4 type, 4 symbol, 8 addend -----

  /** A word read as a signed number of 64 bits. */
  lemma SignedIs(w: nat)
    requires w < 0x1_0000_0000_0000_0000
    ensures -0x8000_0000_0000_0000 <= Signed(w) < 0x8000_0000_0000_0000
    ensures Signed(w) == w || Signed(w) == w - 0x1_0000_0000_0000_0000
  {
  }

  lemma LowHalf(bs: seq<byte>)
    requires |bs| == 8
    ensures FromLe(bs) % 0x1_0000_0000 == FromLe(bs[..4])
  {
    LeSplit(bs, 4);
    LeBound(bs[..4]);
    assert Limit(4) == 0x1_0000_0000 by { assert Limit(2) == 65536; }
  }

  /** Entry `k` of a RELA table, byte by byte: it counts as RELATIVE exactly if its type is 8. */
  lemma {:induction false} RelasAt(bs: seq<byte>, k: nat)
    requires 24 * k + 24 <= |bs|
    ensures k < |Relas(bs)|
    ensures var e := bs[24 * k..24 * k + 24];
      && Relas(bs)[k].offset == FromLe(e[..8])
      && (Relas(bs)[k].relative <==> FromLe(e[8..12]) == 8)
      && Relas(bs)[k].addend == Signed(FromLe(e[16..]))
    decreases k
  {
    if k == 0 {
      var e := bs[0..24];
      assert bs[..8] == e[..8] && bs[8..16] == e[8..16] && bs[16..24] == e[16..] && e[8..16][..4] == e[8..12];
      LowHalf(bs[8..16]);
    } else {
      RelasAt(bs[24..], k - 1);
      assert bs[24..][24 * (k - 1)..24 * (k - 1) + 24] == bs[24 * k..24 * k + 24];
    }
  }

  /** As many entries as there are whole ones. */
  lemma {:induction false} RelasCount(bs: seq<byte>)
    ensures |Relas(bs)| == |bs| / 24
    decreases |bs|
  {
    if |bs| >= 24 { RelasCount(bs[24..]); }
  }

  /** An entry as a linker means it. */
  datatype Entry = Entry(offset: nat, kind: nat, symbol: nat, addend: int)

  predicate Encodable(e: Entry) {
    && e.offset < 0x1_0000_0000_0000_0000 && e.kind < 0x1_0000_0000 && e.symbol < 0x1_0000_0000
    && -0x8000_0000_0000_0000 <= e.addend < 0x8000_0000_0000_0000
  }

  function Unsigned(v: int): nat
    requires -0x8000_0000_0000_0000 <= v < 0x8000_0000_0000_0000
  {
    if v >= 0 then v else v + 0x1_0000_0000_0000_0000
  }

  function Encode(e: Entry): (bs: seq<byte>)
    requires Encodable(e)
    ensures |bs| == 24
  {
    ToLe(e.offset, 8) + ToLe(e.kind, 4) + ToLe(e.symbol, 4) + ToLe(Unsigned(e.addend), 8)
  }

  function EncodeAll(es: seq<Entry>): seq<byte>
    requires forall i :: 0 <= i < |es| ==> Encodable(es[i])
  {
    if es == [] then [] else Encode(es[0]) + EncodeAll(es[1..])
  }

  lemma EncodeFields(e: Entry)
    requires Encodable(e)
    ensures var bs := Encode(e);
      FromLe(bs[..8]) == e.offset && FromLe(bs[8..12]) == e.kind && FromLe(bs[16..]) == Unsigned(e.addend)
  {
    WordLimit();
    assert Limit(4) == 0x1_0000_0000 by { assert Limit(2) == 65536; }
    LeRoundTrip(e.offset, 8);
    LeRoundTrip(e.kind, 4);
    LeRoundTrip(Unsigned(e.addend), 8);
    Pieces(ToLe(e.offset, 8), ToLe(e.kind, 4), ToLe(e.symbol, 4), ToLe(Unsigned(e.addend), 8));
  }

  lemma Pieces(a: seq<byte>, b: seq<byte>, c: seq<byte>, d: seq<byte>)
    requires |a| == 8 && |b| == 4 && |c| == 4 && |d| == 8
    ensures var bs := a + b + c + d; bs[..8] == a && bs[8..12] == b && bs[16..] == d
  {
  }

  /** A table written entry by entry reads back entry by entry. */
  lemma {:induction false} RelaRoundTrip(es: seq<Entry>, k: nat)
    requires (forall i :: 0 <= i < |es| ==> Encodable(es[i])) && k < |es|
    ensures |EncodeAll(es)| == 24 * |es| && |Relas(EncodeAll(es))| == |es|
    ensures Relas(EncodeAll(es))[k] == Rela(es[k].kind == 8, es[k].offset, es[k].addend)
    decreases |es|
  {
    var bs, rest := EncodeAll(es), es[1..];
    EncodedSize(es);
    RelasCount(bs);
    RelasAt(bs, k);
    EncodedAt(es, k);
    EncodeFields(es[k]);
    var e := Encode(es[k]);
    WordLimit();
    LeBound(e[16..]);
    assert Signed(Unsigned(es[k].addend)) == es[k].addend;
  }

  lemma {:induction false} EncodedSize(es: seq<Entry>)
    requires forall i :: 0 <= i < |es| ==> Encodable(es[i])
    ensures |EncodeAll(es)| == 24 * |es|
  {
    if es != [] { EncodedSize(es[1..]); }
  }

  lemma {:induction false} EncodedAt(es: seq<Entry>, k: nat)
    requires (forall i :: 0 <= i < |es| ==> Encodable(es[i])) && k < |es|
    ensures |EncodeAll(es)| >= 24 * k + 24 && EncodeAll(es)[24 * k..24 * k + 24] == Encode(es[k])
    decreases k
  {
    var rest := es[1..];
    if k > 0 {
      EncodedAt(rest, k - 1);
      assert EncodeAll(es)[24..] == EncodeAll(rest);
      assert EncodeAll(es)[24 * k..24 * k + 24] == EncodeAll(rest)[24 * (k - 1)..24 * (k - 1) + 24];
    }
  }

  // ----- dynamic entries: 8 bytes tag, 8 value -----

  lemma {:induction false} DynsAt(bs: seq<byte>, k: nat)
    requires 16 * k + 16 <= |bs|
    ensures k < |Dyns(bs)| && Dyns(bs)[k] == Dyn(FromLe(bs[16 * k..16 * k + 8]), FromLe(bs[16 * k + 8..16 * k + 16]))
    decreases k
  {
    if k > 0 {
      DynsAt(bs[16..], k - 1);
      assert bs[16..][16 * (k - 1)..16 * (k - 1) + 8] == bs[16 * k..16 * k + 8];
      assert bs[16..][16 * (k - 1) + 8..16 * (k - 1) + 16] == bs[16 * k + 8..16 * k + 16];
    }
  }

  lemma {:induction false} DynsCount(bs: seq<byte>)
    ensures |Dyns(bs)| == |bs| / 16
    decreases |bs|
  {
    if |bs| >= 16 { DynsCount(bs[16..]); }
  }

  function EncodeDyns(ds: seq<Dyn>): seq<byte> {
    if ds == [] then [] else ToLe(ds[0].tag, 8) + ToLe(ds[0].val, 8) + EncodeDyns(ds[1..])
  }

  lemma {:induction false} DynRoundTrip(ds: seq<Dyn>)
    requires forall i :: 0 <= i < |ds| ==> ds[i].tag < WORD && ds[i].val < WORD
    ensures Dyns(EncodeDyns(ds)) == ds
  {
    if ds != [] {
      DynRoundTrip(ds[1..]);
      WordLimit();
      LeRoundTrip(ds[0].tag, 8);
      LeRoundTrip(ds[0].val, 8);
      Halves(ToLe(ds[0].tag, 8), ToLe(ds[0].val, 8), EncodeDyns(ds[1..]));
    }
  }

  lemma Halves(a: seq<byte>, b: seq<byte>, c: seq<byte>)
    requires |a| == 8 && |b| == 8
    ensures var bs := a + b + c; bs[..8] == a && bs[8..16] == b && bs[16..] == c
  {
  }

  /** The value under a tag is that of the last entry with the tag. */
  lemma {:induction false} LastIs(ds: seq<Dyn>, tag: nat)
    ensures Last(ds, tag).None? <==> forall i :: 0 <= i < |ds| ==> ds[i].tag != tag
    ensures Last(ds, tag).Some? ==>
      exists i ::
        && 0 <= i < |ds| && ds[i] == Dyn(tag, Last(ds, tag).value)
        && forall j :: i < j < |ds| ==> ds[j].tag != tag
  {
    if ds != [] && ds[|ds| - 1].tag != tag {
      var rest := ds[..|ds| - 1];
      LastIs(rest, tag);
      forall i | 0 <= i < |rest| ensures rest[i] == ds[i] {}
      if Last(rest, tag).Some? {
        var i :|
          && 0 <= i < |rest| && rest[i] == Dyn(tag, Last(rest, tag).value)
          && forall j :: i < j < |rest| ==> rest[j].tag != tag;
        assert ds[i] == Dyn(tag, Last(ds, tag).value);
      }
    }
  }

  /** Which tag is which: address, size and entry size are 7, 8 and 9 for the explicit table and 36, 35 and 37
      for the compressed one. */
  lemma TableTags(ds: seq<Dyn>)
    ensures RelaTable(ds).vaddr == Last(ds, 7) && RelaTable(ds).size == Last(ds, 8) && RelaTable(ds).ent == Last(ds, 9)
    ensures RelrTable(ds).vaddr == Last(ds, 36) && RelrTable(ds).size == Last(ds, 35)
    ensures RelrTable(ds).ent == Last(ds, 37)
  {
  }

  // ----- compressed entries: 8 bytes each -----

  lemma {:induction false} WordsAt(bs: seq<byte>, k: nat)
    requires 8 * k + 8 <= |bs|
    ensures k < |Words(bs)| && Words(bs)[k] == FromLe(bs[8 * k..8 * k + 8])
    decreases k
  {
    if k > 0 {
      WordsAt(bs[8..], k - 1);
      Sliced(bs, 8, 8 * (k - 1), 8 * (k - 1) + 8);
      assert Words(bs)[k] == Words(bs[8..])[k - 1];
    }
  }

  lemma Sliced(bs: seq<byte>, a: nat, b: nat, c: nat)
    requires a + c <= |bs| && b <= c
    ensures bs[a..][b..c] == bs[a + b..a + c]
  {
  }

  lemma {:induction false} WordsCount(bs: seq<byte>)
    ensures |Words(bs)| == |bs| / 8
    decreases |bs|
  {
    if |bs| >= 8 { WordsCount(bs[8..]); }
  }
}
