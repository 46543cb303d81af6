/** The written archive, entry by entry and byte by byte, and the dictionaries of the first pass in their
    order. */
module ArchiveLayout {
  import opened Bytes
  import opened Archive

  // ----- layout -----

  /** Where the header of an entry starts: blocks have 512 bytes. */
  function HeaderStart(e: Entry): int { e.start - 512 * (1 + e.extra) }

  /** Where its data end. */
  function DataEnd(e: Entry): nat { e.start + if e.body.File? then |e.body.data| else 0 }

  /** Entries one after the other from offset 0 to `pos`: each header starts at the first block boundary at or
      after the end of the data before it, and so does whatever comes next. */
  ghost predicate Laid(out: seq<Entry>, pos: nat) {
    && (forall k :: 0 <= k < |out| ==> HeaderStart(out[k]) % 512 == 0)
    && (forall k :: 0 <= k < |out| - 1 ==> DataEnd(out[k]) <= HeaderStart(out[k + 1]) < DataEnd(out[k]) + 512)
    && pos % 512 == 0
    && if out == [] then pos == 0
       else HeaderStart(out[0]) == 0 && DataEnd(out[|out| - 1]) <= pos < DataEnd(out[|out| - 1]) + 512
  }

  lemma EmitLaid(l: Log, name: string, body: Body, extra: nat)
    requires Laid(l.out, l.pos)
    ensures Laid(Emit(l, name, body, extra).out, Emit(l, name, body, extra).pos)
  {
    var l' := Emit(l, name, body, extra);
    var e := l'.out[|l.out|];
    assert HeaderStart(e) == l.pos;
    EmitOnBlock(l, name, body, extra);
    RoundedIs(Size(body));
    forall k | 0 <= k < |l.out| ensures l'.out[k] == l.out[k] {}
  }

  lemma RoundedIs(n: nat)
    ensures n <= Rounded(n) < n + 512
  {
  }

  lemma WriteLaid(l: Log, m: Member, canonical: map<string, string>)
    requires Laid(l.out, l.pos)
    ensures Laid(WriteMember(l, m, canonical).out, WriteMember(l, m, canonical).pos)
  {
    if !Kept(m, canonical) {
      EmitLaid(l, m.name, Symlink("/" + canonical[m.name]), m.linkExtra);
    } else {
      if Gap(l.pos) >= BLOCK { EmitLaid(l, PadName(l.pos), File(Zeros(Gap(l.pos) - BLOCK)), 0); }
      EmitLaid(if Size(m.body) >= ALIGN then Pad(l) else l, m.name, m.body, m.extra);
    }
  }

  /** The archive is laid out without gaps or overlaps. */
  lemma {:induction false} AllLaid(ar: seq<Member>, canonical: map<string, string>)
    ensures Laid(WriteAll(ar, canonical).out, WriteAll(ar, canonical).pos)
  {
    if ar != [] {
      AllLaid(ar[..|ar| - 1], canonical);
      WriteLaid(WriteAll(ar[..|ar| - 1], canonical), ar[|ar| - 1], canonical);
    }
  }

  /** So no two entries share a byte. */
  lemma {:induction false} NoOverlap(out: seq<Entry>, pos: nat, i: nat, j: nat)
    requires Laid(out, pos) && i < j < |out|
    ensures DataEnd(out[i]) <= HeaderStart(out[j])
    decreases j
  {
    if i < j - 1 { NoOverlap(out, pos, i, j - 1); }
  }

  // ----- what is written for a member -----

  lemma OutGrows(l: Log, m: Member, canonical: map<string, string>)
    ensures l.out <= WriteMember(l, m, canonical).out
  {
  }

  lemma {:induction false} PrefixWritten(ar: seq<Member>, canonical: map<string, string>, i: nat)
    requires i <= |ar|
    ensures WriteAll(ar[..i], canonical).out <= WriteAll(ar, canonical).out
    decreases |ar|
  {
    if i == |ar| {
      assert ar[..i] == ar;
    } else {
      var rest := ar[..|ar| - 1];
      PrefixWritten(rest, canonical, i);
      assert rest[..i] == ar[..i];
      OutGrows(WriteAll(rest, canonical), ar[|ar| - 1], canonical);
    }
  }

  /** What becomes of a member's body. */
  function BodyOf(m: Member, canonical: map<string, string>): Body {
    if m.body.File? && m.name in canonical then Symlink("/" + canonical[m.name]) else m.body
  }

  /** Members keep their order: member `i` is the last of the entries written by then, under its name, with the
      header of a link if it became one; at most one other entry is written for it, zeros in front of a file
      of 64 KiB or more. */
  lemma EntryFor(ar: seq<Member>, canonical: map<string, string>, i: nat)
    requires i < |ar|
    ensures var out, done, now :=
      WriteAll(ar, canonical).out, |WriteAll(ar[..i], canonical).out|, |WriteAll(ar[..i + 1], canonical).out|;
      && done < now <= |out| && now <= done + 2
      && out[now - 1].name == ar[i].name && out[now - 1].body == BodyOf(ar[i], canonical)
      && out[now - 1].extra == (if BodyOf(ar[i], canonical) == ar[i].body then ar[i].extra else ar[i].linkExtra)
      && (now == done + 2 ==>
            && ar[i].body.File? && |ar[i].body.data| >= 65536 && "litebox/.align/" <= out[done].name
            && out[done].body.File? && forall b :: b in out[done].body.data ==> b == 0)
  {
    PrefixWritten(ar, canonical, i + 1);
    var l := WriteAll(ar[..i], canonical);
    assert ar[..i + 1][..i] == ar[..i];
    assert WriteAll(ar[..i + 1], canonical) == WriteMember(l, ar[i], canonical);
    MemberEntry(l, ar[i], canonical);
  }

  lemma MemberEntry(l: Log, m: Member, canonical: map<string, string>)
    ensures var out, done := WriteMember(l, m, canonical).out, |l.out|;
      && done < |out| <= done + 2
      && out[|out| - 1].name == m.name && out[|out| - 1].body == BodyOf(m, canonical)
      && out[|out| - 1].extra == (if BodyOf(m, canonical) == m.body then m.extra else m.linkExtra)
      && (|out| == done + 2 ==>
            && m.body.File? && |m.body.data| >= 65536 && "litebox/.align/" <= out[done].name
            && out[done].body.File? && forall b :: b in out[done].body.data ==> b == 0)
  {
  }

  // ----- padding -----

  /** The gap is the least one that will do: nothing when the data are aligned already, and otherwise the
      smallest distance to a boundary with room for a header and a block of data. */
  lemma GapIsLeast(pos: nat, g: nat)
    requires (pos + g + 512) % 65536 == 0 && (g == 0 || g >= 1024)
    ensures Gap(pos) <= g
    ensures (pos + 512) % 65536 == 0 ==> Gap(pos) == 0
  {
    var a, b := (pos + 512) / 65536, (pos + g + 512) / 65536;
    var mis := (pos + 512) % 65536;
    assert pos + 512 == 65536 * a + mis;
    assert pos + g + 512 == 65536 * b;
    assert g == 65536 * (b - a) - mis;
  }

  /** The number a string of decimal digits stands for. */
  function Value(s: string): int {
    if s == "" then 0 else 10 * Value(s[..|s| - 1]) + (s[|s| - 1] as int - '0' as int)
  }

  /** Padding entries are named for their offset, in decimal. */
  lemma {:induction false} DigitsAreDecimal(n: nat)
    ensures Value(Digits(n)) == n && Digits(n) != "" && (|Digits(n)| > 1 ==> Digits(n)[0] != '0')
    ensures forall i :: 0 <= i < |Digits(n)| ==> '0' <= Digits(n)[i] <= '9'
  {
    OneDigit(n % 10);
    if n >= 10 {
      DigitsAreDecimal(n / 10);
      var d := Digits(n / 10);
      assert Digits(n)[..|d|] == d;
      if |d| == 1 { assert Value(d) == d[0] as int - '0' as int; }
    }
  }

  lemma OneDigit(d: nat)
    requires d < 10
    ensures "0123456789"[d] as int == '0' as int + d
  {
  }

  lemma PadNamesDiffer(p: nat, q: nat)
    requires PadName(p) == PadName(q)
    ensures p == q
  {
    DigitsAreDecimal(p);
    DigitsAreDecimal(q);
    var n := |PAD_PREFIX|;
    assert PadName(p)[n..] == Digits(p) && PadName(q)[n..] == Digits(q);
  }

  // ----- the dictionaries in their order -----

  predicate HashedAs(m: Member, digest: seq<byte> -> string, h: string) {
    m.body.File? && |m.body.data| > 0 && digest(m.body.data) == h
  }

  /** `idx` lists the members with digest `h` in the order of the archive, and `names` their names. */
  ghost predicate Lists(ar: seq<Member>, digest: seq<byte> -> string, h: string, idx: seq<nat>, names: seq<string>) {
    && |idx| == |names|
    && (forall k :: 0 <= k < |idx| ==>
          idx[k] < |ar| && HashedAs(ar[idx[k]], digest, h) && ar[idx[k]].name == names[k])
    && (forall j, k :: 0 <= j < k < |idx| ==> idx[j] < idx[k])
    && (forall i :: 0 <= i < |ar| && HashedAs(ar[i], digest, h) ==> i in idx)
  }

  lemma ListsMore(ar: seq<Member>, m: Member, digest: seq<byte> -> string, h: string, idx: seq<nat>, names: seq<string>)
    requires Lists(ar, digest, h, idx, names)
    ensures HashedAs(m, digest, h) ==> Lists(ar + [m], digest, h, idx + [|ar|], names + [m.name])
    ensures !HashedAs(m, digest, h) ==> Lists(ar + [m], digest, h, idx, names)
  {
    var ar' := ar + [m];
    forall i | 0 <= i < |ar| ensures ar'[i] == ar[i] {}
    var idx' := idx + [|ar|];
    assert idx'[|idx|] == |ar|;
    forall i | i in idx ensures i in idx' {}
  }

  /** A group lists the non-empty files with its digest in the order of the archive, each once per occurrence. */
  lemma {:induction false} GroupInOrder(ar: seq<Member>, digest: seq<byte> -> string, h: string) returns (idx: seq<nat>)
    ensures Lists(ar, digest, h, idx, Group(ar, digest, h))
  {
    idx := [];
    if ar != [] {
      var n := |ar| - 1;
      idx := GroupInOrder(ar[..n], digest, h);
      ListsMore(ar[..n], ar[n], digest, h, idx, Group(ar[..n], digest, h));
      assert ar == ar[..n] + [ar[n]];
      if HashedAs(ar[n], digest, h) {
        idx := idx + [n];
      } else {
        assert Group(ar[..n], digest, h) + [] == Group(ar[..n], digest, h);
      }
    }
  }

  /** `idx` lists the places where the digests `ks` first occur, and no other digest occurs. */
  ghost predicate FirstsOf(ar: seq<Member>, digest: seq<byte> -> string, idx: seq<nat>, ks: seq<string>) {
    && |idx| == |ks|
    && (forall k :: 0 <= k < |idx| ==> idx[k] < |ar| && FirstAt(ar, digest, idx[k], ks[k]))
    && (forall j, k :: 0 <= j < k < |idx| ==> idx[j] < idx[k])
    && (forall i :: 0 <= i < |ar| && Hashed(ar[i]) ==> digest(ar[i].body.data) in ks)
  }

  ghost predicate FirstAt(ar: seq<Member>, digest: seq<byte> -> string, n: nat, h: string)
    requires n < |ar|
  {
    HashedAs(ar[n], digest, h) && forall i :: 0 <= i < n ==> !HashedAs(ar[i], digest, h)
  }

  lemma FirstsMore(ar: seq<Member>, m: Member, digest: seq<byte> -> string, idx: seq<nat>, ks: seq<string>)
    requires FirstsOf(ar, digest, idx, ks)
    ensures Hashed(m) && digest(m.body.data) !in ks ==>
      FirstsOf(ar + [m], digest, idx + [|ar|], ks + [digest(m.body.data)])
    ensures !(Hashed(m) && digest(m.body.data) !in ks) ==> FirstsOf(ar + [m], digest, idx, ks)
  {
    var ar' := ar + [m];
    forall i | 0 <= i < |ar| ensures ar'[i] == ar[i] {}
    forall k | 0 <= k < |idx| ensures FirstAt(ar', digest, idx[k], ks[k]) { assert FirstAt(ar, digest, idx[k], ks[k]); }
    if Hashed(m) && digest(m.body.data) !in ks {
      var h := digest(m.body.data);
      assert FirstAt(ar', digest, |ar|, h);
      assert h in ks + [h];
    }
  }

  /** The keys are the digests of non-empty files, each once, in the order in which they first occur. */
  lemma {:induction false} KeysInOrder(ar: seq<Member>, digest: seq<byte> -> string) returns (idx: seq<nat>)
    ensures FirstsOf(ar, digest, idx, Keys(ar, digest))
  {
    idx := [];
    if ar != [] {
      var n := |ar| - 1;
      idx := KeysInOrder(ar[..n], digest);
      FirstsMore(ar[..n], ar[n], digest, idx, Keys(ar[..n], digest));
      assert ar == ar[..n] + [ar[n]];
      if Hashed(ar[n]) && digest(ar[n].body.data) !in Keys(ar[..n], digest) { idx := idx + [n]; }
    }
  }

  /** Of the groups from index `i` on, none redirects the name. */
  ghost predicate Silent(ar: seq<Member>, digest: seq<byte> -> string, ks: seq<string>, n: string, i: nat) {
    forall j :: i <= j < |ks| ==> !Redirects(ar, digest, ks[j], n)
  }

  /** Of the groups taken in turn, the last one that redirects a name decides. */
  lemma {:induction false} LastGroupDecides(ar: seq<Member>, digest: seq<byte> -> string, ks: seq<string>, n: string)
    returns (i: nat)
    ensures Target(ar, digest, ks, n).None? ==> Silent(ar, digest, ks, n, 0)
    ensures Target(ar, digest, ks, n).Some? ==>
      && i < |ks| && Redirects(ar, digest, ks[i], n) && Silent(ar, digest, ks, n, i + 1)
      && Target(ar, digest, ks, n) == Some(Keeper(ar, digest, ks[i]))
    decreases |ks|
  {
    i := 0;
    if ks != [] {
      var last := |ks| - 1;
      i := last;
      if !Redirects(ar, digest, ks[last], n) {
        i := LastGroupDecides(ar, digest, ks[..last], n);
        SilentMore(ar, digest, ks, n, 0);
        SilentMore(ar, digest, ks, n, i + 1);
      }
    }
  }

  lemma SilentMore(ar: seq<Member>, digest: seq<byte> -> string, ks: seq<string>, n: string, i: nat)
    requires ks != [] && !Redirects(ar, digest, ks[|ks| - 1], n)
    ensures Silent(ar, digest, ks[..|ks| - 1], n, i) ==> Silent(ar, digest, ks, n, i)
  {
    var rest := ks[..|ks| - 1];
    if Silent(ar, digest, rest, n, i) {
      forall j | i <= j < |ks| ensures !Redirects(ar, digest, ks[j], n) {
        if j < |rest| { assert rest[j] == ks[j]; }
      }
    }
  }

  // ----- what a reader finds -----

  /** Under a name stands the last member of that name. */
  lemma {:induction false} MemberFound(ar: seq<Member>, name: string) returns (i: nat)
    ensures LookupMember(ar, name).None? ==> forall j :: 0 <= j < |ar| ==> ar[j].name != name
    ensures LookupMember(ar, name).Some? ==>
      && i < |ar| && ar[i].name == name && LookupMember(ar, name) == Some(ar[i].body)
      && forall j :: i < j < |ar| ==> ar[j].name != name
    decreases |ar|
  {
    i := 0;
    if ar != [] {
      i := |ar| - 1;
      if ar[i].name != name { i := MemberFound(ar[..i], name); }
    }
  }

  /** And under a name of the written archive the last entry. */
  lemma {:induction false} EntryFound(out: seq<Entry>, name: string) returns (i: nat)
    ensures LookupEntry(out, name).None? ==> forall j :: 0 <= j < |out| ==> out[j].name != name
    ensures LookupEntry(out, name).Some? ==>
      && i < |out| && out[i].name == name && LookupEntry(out, name) == Some(out[i].body)
      && forall j :: i < j < |out| ==> out[j].name != name
    decreases |out|
  {
    i := 0;
    if out != [] {
      i := |out| - 1;
      if out[i].name != name { i := EntryFound(out[..i], name); }
    }
  }
}
