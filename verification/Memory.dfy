/** Guest memory: a map from addresses to bytes with their protection, the calls that change it, and
    little-endian words in it. */
module Memory {
  import opened Bytes

  const PAGE: nat := 4096

  datatype Prot = Prot(read: bool, write: bool, execute: bool)

  datatype Cell = Cell(value: byte, prot: Prot)

  type Cells = map<nat, Cell>

  /** What a loading step can come back with. */
  datatype Outcome = Ok | InvalidProgramHeader | MapError | Fault

  function Down(a: nat): nat { a / PAGE * PAGE }

  function Up(a: nat): nat { (a + PAGE - 1) / PAGE * PAGE }

  lemma PageBounds(a: nat)
    ensures Down(a) % PAGE == 0 && Up(a) % PAGE == 0
    ensures Down(a) <= a < Down(a) + PAGE && a <= Up(a) < a + PAGE
    ensures a % PAGE == 0 ==> Down(a) == a == Up(a)
  {
  }

  /** Pages are 4096 bytes: rounding goes to the nearest multiple of that below or above. */
  lemma PageIs4096(a: nat)
    ensures Down(a) % 4096 == 0 && Up(a) % 4096 == 0 && a - 4096 < Down(a) <= a <= Up(a) < a + 4096
  {
  }

  lemma UpMonotone(a: nat, b: nat)
    requires a <= b
    ensures Up(a) <= Up(b) && Down(a) <= Down(b)
  {
  }

  /** Rounding commutes with moving by whole pages. */
  lemma Shifted(base: nat, a: nat)
    requires base % PAGE == 0
    ensures Down(base + a) == base + Down(a) && Up(base + a) == base + Up(a)
  {
  }

  lemma PagesBetween(a: nat, b: nat)
    requires a <= b && a % PAGE == 0 && b % PAGE == 0
    ensures (b - a) % PAGE == 0
  {
  }

  // ----- little-endian words -----

  function ToLe(v: nat, n: nat): (bs: seq<byte>)
    ensures |bs| == n
  {
    if n == 0 then [] else [(v % 256) as byte] + ToLe(v / 256, n - 1)
  }

  function FromLe(bs: seq<byte>): nat {
    if bs == [] then 0 else bs[0] as nat + 256 * FromLe(bs[1..])
  }

  function Limit(n: nat): nat { if n == 0 then 1 else 256 * Limit(n - 1) }

  lemma {:induction false} LeRoundTrip(v: nat, n: nat)
    requires v < Limit(n)
    ensures FromLe(ToLe(v, n)) == v
    decreases n
  {
    if n > 0 {
      LeRoundTrip(v / 256, n - 1);
      assert ToLe(v, n)[1..] == ToLe(v / 256, n - 1);
    }
  }

  lemma {:induction false} LeBound(bs: seq<byte>)
    ensures FromLe(bs) < Limit(|bs|)
  {
    if bs != [] { LeBound(bs[1..]); }
  }

  lemma WordLimit()
    ensures Limit(8) == WORD
  {
    assert Limit(4) == 0x1_0000_0000 by { assert Limit(2) == 65536; }
    assert Limit(6) == 0x1_0000_0000_0000;
  }

  /** A number is the value of its low bytes plus that of the high ones, shifted. */
  lemma {:induction false} LeSplit(bs: seq<byte>, i: nat)
    requires i <= |bs|
    ensures FromLe(bs) == FromLe(bs[..i]) + Limit(i) * FromLe(bs[i..])
    decreases i
  {
    if i == 0 {
      assert bs[..0] == [] && bs[0..] == bs;
    } else {
      LeSplit(bs[1..], i - 1);
      assert bs[..i][1..] == bs[1..][..i - 1] && bs[1..][i - 1..] == bs[i..] && bs[..i][0] == bs[0];
      Distribute(FromLe(bs[1..][..i - 1]), Limit(i - 1), FromLe(bs[i..]));
    }
  }

  lemma Distribute(a: nat, l: nat, b: nat)
    ensures 256 * (a + l * b) == 256 * a + (256 * l) * b
  {
    assert 256 * (l * b) == (256 * l) * b;
  }

  /** A machine word is little-endian: the first byte counts ones, the last one 2^56s. */
  lemma LittleEndian(bs: seq<byte>)
    requires |bs| == 8
    ensures FromLe(bs) ==
      bs[0] as nat + 0x100 * bs[1] as nat + 0x1_0000 * bs[2] as nat + 0x100_0000 * bs[3] as nat
      + 0x1_0000_0000 * bs[4] as nat + 0x100_0000_0000 * bs[5] as nat
      + 0x1_0000_0000_0000 * bs[6] as nat + 0x100_0000_0000_0000 * bs[7] as nat
  {
    FourBytes(bs[..4]);
    FourBytes(bs[4..]);
    LeSplit(bs, 4);
    assert Limit(4) == 0x1_0000_0000 by { assert Limit(2) == 65536; }
  }

  lemma FourBytes(bs: seq<byte>)
    requires |bs| == 4
    ensures FromLe(bs) == bs[0] as nat + 0x100 * bs[1] as nat + 0x1_0000 * bs[2] as nat + 0x100_0000 * bs[3] as nat
  {
    assert FromLe(bs[3..]) == bs[3] as nat by { assert bs[3..][1..] == []; }
    assert bs[2..][1..] == bs[3..] && bs[1..][1..] == bs[2..];
    assert FromLe(bs[2..]) == bs[2] as nat + 0x100 * FromLe(bs[3..]);
    assert FromLe(bs[1..]) == bs[1] as nat + 0x100 * FromLe(bs[2..]);
  }

  /** And only one string of that many bytes has that value. */
  lemma {:induction false} LeInverse(bs: seq<byte>)
    ensures ToLe(FromLe(bs), |bs|) == bs
  {
    if bs != [] {
      LeInverse(bs[1..]);
      LowByte(bs[0] as nat, FromLe(bs[1..]));
      assert bs == [bs[0]] + bs[1..];
    }
  }

  lemma LowByte(b: nat, v: nat)
    requires b < 256
    ensures (b + 256 * v) % 256 == b && (b + 256 * v) / 256 == v
  {
  }

  // ----- reading and writing -----

  predicate Mapped(m: Cells, a: nat, n: nat) { forall x :: a <= x < a + n ==> x in m }

  predicate Readable(m: Cells, a: nat, n: nat) {
    forall x :: a <= x < a + n ==> x in m && m[x].prot.read
  }

  predicate Writable(m: Cells, a: nat, n: nat) {
    forall x :: a <= x < a + n ==> x in m && m[x].prot.write
  }

  function Fetch(m: Cells, a: nat, n: nat): seq<byte>
    requires Mapped(m, a, n)
  {
    seq(n, i requires 0 <= i < n => m[a + i].value)
  }

  function Poke(m: Cells, a: nat, data: seq<byte>): Cells {
    map x | x in m :: if a <= x < a + |data| then m[x].(value := data[x - a]) else m[x]
  }

  function Word(m: Cells, a: nat): nat
    requires Mapped(m, a, 8)
  {
    FromLe(Fetch(m, a, 8))
  }

  function PokeWord(m: Cells, a: nat, v: nat): Cells { Poke(m, a, ToLe(v, 8)) }

  lemma PokeWordReads(m: Cells, a: nat, v: nat)
    requires v < WORD && Mapped(m, a, 8)
    ensures Word(PokeWord(m, a, v), a) == v
  {
    WordLimit();
    LeRoundTrip(v, 8);
    assert Fetch(PokeWord(m, a, v), a, 8) == ToLe(v, 8);
  }

  // ----- mapping -----

  /** A byte of the file; a mapping reaches past its end with zeros. */
  function FileByte(file: seq<byte>, off: nat): byte { if off < |file| then file[off] else 0 }

  predicate Within(a: nat, n: nat, x: nat) { a <= x < a + n }

  function FilePart(a: nat, n: nat, file: seq<byte>, off: nat, prot: Prot): Cells {
    map x: nat | a <= x < a + n && Within(a, n, x) :: Cell(FileByte(file, off + (x - a)), prot)
  }

  function ZeroPart(a: nat, n: nat, prot: Prot): Cells {
    map x: nat | a <= x < a + n && Within(a, n, x) :: Cell(0, prot)
  }

  function Reprotect(m: Cells, a: nat, n: nat, prot: Prot): Cells {
    map x | x in m :: if a <= x < a + n then m[x].(prot := prot) else m[x]
  }

  /** The mapper and the memory accessor of the loader, over one address space. */
  class Space {
    var cells: Cells

    constructor ()
      ensures cells == map[]
    {
      cells := map[];
    }

    method Read(a: nat, n: nat) returns (r: Outcome, data: seq<byte>)
      ensures r == (if Readable(cells, a, n) then Ok else Fault)
      ensures r == Ok ==> Mapped(cells, a, n) && data == Fetch(cells, a, n)
    {
      if Readable(cells, a, n) {
        r, data := Ok, Fetch(cells, a, n);
      } else {
        r, data := Fault, [];
      }
    }

    method Write(a: nat, data: seq<byte>) returns (r: Outcome)
      modifies this
      ensures r == (if Writable(old(cells), a, |data|) then Ok else Fault)
      ensures cells == if r == Ok then Poke(old(cells), a, data) else old(cells)
    {
      if Writable(cells, a, |data|) {
        cells := Poke(cells, a, data);
        r := Ok;
      } else {
        r := Fault;
      }
    }

    /** Map file bytes, replacing what was there; refuses anything that is not page-aligned. */
    method MapFile(a: nat, n: nat, file: seq<byte>, off: nat, prot: Prot) returns (r: Outcome)
      modifies this
      ensures r == (if a % PAGE == 0 && n % PAGE == 0 && off % PAGE == 0 then Ok else MapError)
      ensures cells == if r == Ok then old(cells) + FilePart(a, n, file, off, prot) else old(cells)
    {
      if a % PAGE == 0 && n % PAGE == 0 && off % PAGE == 0 {
        cells := cells + FilePart(a, n, file, off, prot);
        return Ok;
      }
      return MapError;
    }

    method MapZero(a: nat, n: nat, prot: Prot) returns (r: Outcome)
      modifies this
      ensures r == (if a % PAGE == 0 && n % PAGE == 0 then Ok else MapError)
      ensures cells == if r == Ok then old(cells) + ZeroPart(a, n, prot) else old(cells)
    {
      if a % PAGE == 0 && n % PAGE == 0 {
        cells := cells + ZeroPart(a, n, prot);
        return Ok;
      }
      return MapError;
    }

    method Protect(a: nat, n: nat, prot: Prot) returns (r: Outcome)
      modifies this
      ensures r == (if a % PAGE == 0 && n % PAGE == 0 then Ok else MapError)
      ensures cells == if r == Ok then Reprotect(old(cells), a, n, prot) else old(cells)
    {
      if a % PAGE == 0 && n % PAGE == 0 {
        cells := Reprotect(cells, a, n, prot);
        return Ok;
      }
      return MapError;
    }
  }
}
