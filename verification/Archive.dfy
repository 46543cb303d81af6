/** Re-emitting a layer archive: files with equal contents become one file and links to it, and large
    files are moved to 64 KiB boundaries by padding entries. */
module Archive {
  import opened Bytes
  import opened Tally

  const ALIGN: nat := 65536
  const BLOCK: nat := 512

  datatype Body =
    | File(data: seq<byte>)
    | Symlink(text: string)
    | Hardlink(name: string)
    | Other

  /** An archive member, with the number of header blocks beyond the first that the writer spends on
      it, and on a link emitted in its place (names that need an extended header cost more). */
  datatype Member = Member(name: string, body: Body, extra: nat, linkExtra: nat)

  /** An entry as written: `start` is the offset of its data, `extra` the header blocks beyond the first. */
  datatype Entry = Entry(name: string, body: Body, start: nat, extra: nat)

  // ----- what an archive means -----

  function LookupMember(ar: seq<Member>, name: string): Option<Body> {
    if ar == [] then None
    else if ar[|ar| - 1].name == name then Some(ar[|ar| - 1].body)
    else LookupMember(ar[..|ar| - 1], name)
  }

  function LookupEntry(out: seq<Entry>, name: string): Option<Body> {
    if out == [] then None
    else if out[|out| - 1].name == name then Some(out[|out| - 1].body)
    else LookupEntry(out[..|out| - 1], name)
  }

  /** The bytes found at a path after following at most `hops` links, for any reading `dest` of link
      texts. */
  function Follow(at: string -> Option<Body>, dest: (string, string) -> string, name: string,
                  hops: nat): Option<seq<byte>>
    decreases hops
  {
    match at(name)
    case Some(File(data)) => Some(data)
    case Some(Symlink(text)) => if hops == 0 then None else Follow(at, dest, dest(name, text), hops - 1)
    case Some(Hardlink(n)) => if hops == 0 then None else Follow(at, dest, n, hops - 1)
    case _ => None
  }

  function InMembers(ar: seq<Member>): string -> Option<Body> { (name: string) => LookupMember(ar, name) }

  function InEntries(out: seq<Entry>): string -> Option<Body> { (name: string) => LookupEntry(out, name) }

  /** All members with the name of a non-empty file are that file again; other names may be repeated at
      will. */
  ghost predicate FilesAgree(ar: seq<Member>) {
    forall m, n :: m in ar && n in ar && m.name == n.name && Hashed(m) ==> n.body == m.body
  }

  ghost predicate Injective(ar: seq<Member>, digest: seq<byte> -> string) {
    forall m, n :: m in ar && n in ar && m.body.File? && n.body.File? ==>
      digest(m.body.data) == digest(n.body.data) ==> m.body.data == n.body.data
  }

  // ----- pass 1: which files are duplicates -----

  predicate Hashed(m: Member) { m.body.File? && m.body.data != [] }

  /** The names of the non-empty files with digest `h`, in archive order. */
  function Group(ar: seq<Member>, digest: seq<byte> -> string, h: string): seq<string> {
    if ar == [] then []
    else
      var m := ar[|ar| - 1];
      Group(ar[..|ar| - 1], digest, h) + (if Hashed(m) && digest(m.body.data) == h then [m.name] else [])
  }

  /** `min(names, key=len)`: the first of the shortest names. */
  function Shortest(names: seq<string>): string
    requires names != []
  {
    if |names| == 1 then names[0]
    else
      var best, last := Shortest(names[..|names| - 1]), names[|names| - 1];
      if |last| < |best| then last else best
  }

  /** The file that stays for the contents with digest `h`. */
  function Keeper(ar: seq<Member>, digest: seq<byte> -> string, h: string): string {
    var names := Group(ar, digest, h);
    if names == [] then "" else Shortest(names)
  }

  ghost predicate Duplicate(ar: seq<Member>, digest: seq<byte> -> string, m: Member) {
    m in ar && Hashed(m) && Keeper(ar, digest, digest(m.body.data)) != m.name
  }

  /** The digests of non-empty files in the order in which they are first met. */
  function Keys(ar: seq<Member>, digest: seq<byte> -> string): seq<string> {
    if ar == [] then []
    else
      var m, ks := ar[|ar| - 1], Keys(ar[..|ar| - 1], digest);
      if Hashed(m) && digest(m.body.data) !in ks then ks + [digest(m.body.data)] else ks
  }

  predicate Redirects(ar: seq<Member>, digest: seq<byte> -> string, h: string, n: string) {
    n in Group(ar, digest, h) && n != Keeper(ar, digest, h)
  }

  /** Where the groups with these digests, taken in turn, send a name: the last one that redirects it
      counts. */
  function Target(ar: seq<Member>, digest: seq<byte> -> string, ks: seq<string>, n: string): Option<string> {
    if ks == [] then None
    else if Redirects(ar, digest, ks[|ks| - 1], n) then Some(Keeper(ar, digest, ks[|ks| - 1]))
    else Target(ar, digest, ks[..|ks| - 1], n)
  }

  ghost predicate Records(ar: seq<Member>, digest: seq<byte> -> string, ks: seq<string>,
                          canonical: map<string, string>)
  {
    forall n ::
      (n in canonical <==> Target(ar, digest, ks, n).Some?) &&
      (n in canonical ==> Some(canonical[n]) == Target(ar, digest, ks, n))
  }

  /** The dictionary of the second pass. */
  ghost predicate IsCanonical(ar: seq<Member>, digest: seq<byte> -> string, canonical: map<string, string>) {
    Records(ar, digest, Keys(ar, digest), canonical)
  }

  lemma {:induction false} ShortestIsFirst(names: seq<string>) returns (i: nat)
    requires names != []
    ensures i < |names| && names[i] == Shortest(names)
    ensures forall j :: 0 <= j < |names| ==> |names[i]| <= |names[j]| && (j < i ==> |names[i]| < |names[j]|)
  {
    var last := |names| - 1;
    i := last;
    if |names| > 1 {
      var k := ShortestIsFirst(names[..last]);
      if |names[k]| <= |names[last]| { i := k; }
      forall j | 0 <= j < last ensures names[..last][j] == names[j] {}
    }
  }

  lemma {:induction false} GroupIs(ar: seq<Member>, digest: seq<byte> -> string, h: string, n: string)
    ensures n in Group(ar, digest, h) <==> exists m :: m in ar && m.name == n && Hashed(m) && digest(m.body.data) == h
  {
    if ar != [] {
      GroupIs(ar[..|ar| - 1], digest, h, n);
      assert ar == ar[..|ar| - 1] + [ar[|ar| - 1]];
    }
  }

  /** The file that stays is in the archive, has the same contents and no longer a name, and is not
      itself replaced. */
  lemma KeeperIs(ar: seq<Member>, digest: seq<byte> -> string, m: Member) returns (k: Member)
    requires Injective(ar, digest) && m in ar && Hashed(m)
    ensures k in ar && k.body == m.body && k.name == Keeper(ar, digest, digest(m.body.data))
    ensures !Duplicate(ar, digest, k) && |k.name| <= |m.name|
  {
    var h := digest(m.body.data);
    GroupIs(ar, digest, h, m.name);
    var names := Group(ar, digest, h);
    var i := ShortestIsFirst(names);
    GroupIs(ar, digest, h, Shortest(names));
    k :| k in ar && k.name == Shortest(names) && Hashed(k) && digest(k.body.data) == h;
  }

  /** Of two files with equal non-empty contents and different names, at least one is replaced. */
  lemma OneStays(ar: seq<Member>, digest: seq<byte> -> string, m: Member, n: Member)
    requires m in ar && n in ar && m.name != n.name && Hashed(m) && n.body == m.body
    ensures Duplicate(ar, digest, m) || Duplicate(ar, digest, n)
  {
  }

  /** The dictionary of the first pass holds the group of every digest that occurs. */
  ghost predicate Grouped(digests: map<string, seq<string>>, ar: seq<Member>, digest: seq<byte> -> string) {
    forall h :: (h in digests <==> Group(ar, digest, h) != []) && (h in digests ==> digests[h] == Group(ar, digest, h))
  }

  function AddName(digests: map<string, seq<string>>, h: string, name: string): map<string, seq<string>> {
    digests[h := (if h in digests then digests[h] else []) + [name]]
  }

  lemma GroupedStep(digests: map<string, seq<string>>, ar: seq<Member>, m: Member, digest: seq<byte> -> string)
    requires Grouped(digests, ar, digest)
    ensures Grouped(if Hashed(m) then AddName(digests, digest(m.body.data), m.name) else digests, ar + [m], digest)
  {
    forall h ensures Group(ar + [m], digest, h) ==
      Group(ar, digest, h) + if Hashed(m) && digest(m.body.data) == h then [m.name] else []
    {
      assert (ar + [m])[..|ar + [m]| - 1] == ar;
    }
  }

  /** The dictionary of names by digest, and the order of its keys. */
  method GroupByDigest(ar: seq<Member>, digest: seq<byte> -> string)
    returns (digests: map<string, seq<string>>, keys: seq<string>)
    ensures Grouped(digests, ar, digest) && keys == Keys(ar, digest) && HasGroups(digests, keys)
  {
    digests, keys := map[], [];
    for i := 0 to |ar|
      invariant Grouped(digests, ar[..i], digest) && keys == Keys(ar[..i], digest)
      invariant forall h :: h in keys <==> h in digests
    {
      var m := ar[i];
      GroupedStep(digests, ar[..i], m, digest);
      assert ar[..i + 1] == ar[..i] + [m];
      assert ar[..i + 1][..i] == ar[..i];
      if Hashed(m) {
        var h := digest(m.body.data);
        if h !in digests { keys := keys + [h]; }
        digests := AddName(digests, h, m.name);
      }
    }
    assert ar[..|ar|] == ar;
  }

  /** The dictionary with every name of a group but the kept one mapped to it. */
  function Redirected(names: seq<string>, keep: string, canonical: map<string, string>): map<string, string> {
    canonical + map n | n in names && n != keep :: keep
  }

  predicate HasGroups(digests: map<string, seq<string>>, ks: seq<string>) {
    forall h :: h in ks ==> h in digests && digests[h] != []
  }

  /** The groups with these digests, taken in turn. */
  function Merged(digests: map<string, seq<string>>, ks: seq<string>): map<string, string>
    requires HasGroups(digests, ks)
  {
    if ks == [] then map[]
    else
      var names := digests[ks[|ks| - 1]];
      Redirected(names, Shortest(names), Merged(digests, ks[..|ks| - 1]))
  }

  lemma {:induction false} MergedRecords(ar: seq<Member>, digest: seq<byte> -> string,
                                         digests: map<string, seq<string>>, ks: seq<string>)
    requires Grouped(digests, ar, digest) && HasGroups(digests, ks)
    ensures Records(ar, digest, ks, Merged(digests, ks))
    decreases |ks|
  {
    if ks != [] {
      var rest := ks[..|ks| - 1];
      MergedRecords(ar, digest, digests, rest);
      RecordsStep(ar, digest, ks, digests[ks[|ks| - 1]], Merged(digests, rest));
    }
  }

  lemma RecordsStep(ar: seq<Member>, digest: seq<byte> -> string, ks: seq<string>, names: seq<string>,
                    canonical: map<string, string>)
    requires ks != [] && Records(ar, digest, ks[..|ks| - 1], canonical)
    requires names == Group(ar, digest, ks[|ks| - 1]) && names != []
    ensures Records(ar, digest, ks, Redirected(names, Shortest(names), canonical))
  {
  }

  /** Pass 1 of the source: group by digest in a dictionary, then, group by group in the order of its keys,
      map every member of a group of two or more to the one that stays. */
  method FindDuplicates(ar: seq<Member>, digest: seq<byte> -> string) returns (canonical: map<string, string>)
    ensures IsCanonical(ar, digest, canonical)
  {
    var digests, keys := GroupByDigest(ar, digest);
    canonical := MapGroups(digests, keys);
    MergedRecords(ar, digest, digests, keys);
  }

  method MapGroups(digests: map<string, seq<string>>, keys: seq<string>) returns (canonical: map<string, string>)
    requires HasGroups(digests, keys)
    ensures canonical == Merged(digests, keys)
  {
    canonical := map[];
    for i := 0 to |keys|
      invariant canonical == Merged(digests, keys[..i])
    {
      assert keys[..i + 1][..i] == keys[..i];
      canonical := MapGroup(digests[keys[i]], canonical);
    }
    assert keys[..|keys|] == keys;
  }

  lemma RedirectedStep(names: seq<string>, i: nat, keep: string, canonical: map<string, string>)
    requires i < |names|
    ensures Redirected(names[..i + 1], keep, canonical) ==
      var r := Redirected(names[..i], keep, canonical); if names[i] == keep then r else r[names[i] := keep]
  {
    assert names[..i + 1] == names[..i] + [names[i]];
  }

  /** The inner loop. */
  method Redirect(names: seq<string>, keep: string, canonical: map<string, string>) returns (r: map<string, string>)
    ensures r == Redirected(names, keep, canonical)
  {
    r := canonical;
    for i := 0 to |names|
      invariant r == Redirected(names[..i], keep, canonical)
    {
      RedirectedStep(names, i, keep, canonical);
      if names[i] != keep {
        r := r[names[i] := keep];
      }
    }
    assert names[..|names|] == names;
  }

  /** One group: nothing to do for a group of one. */
  method MapGroup(names: seq<string>, canonical: map<string, string>) returns (r: map<string, string>)
    requires names != []
    ensures r == Redirected(names, Shortest(names), canonical)
  {
    r := canonical;
    if |names| > 1 {
      r := Redirect(names, Shortest(names), canonical);
    } else {
      assert names == [Shortest(names)];
    }
  }

  /** A file is in the group of its own digest and in no other. */
  lemma OwnGroup(ar: seq<Member>, digest: seq<byte> -> string, h: string, m: Member)
    requires FilesAgree(ar) && m in ar && Hashed(m)
    ensures m.name in Group(ar, digest, h) <==> digest(m.body.data) == h
  {
    GroupIs(ar, digest, h, m.name);
  }

  lemma {:induction false} KeysAre(ar: seq<Member>, digest: seq<byte> -> string, m: Member)
    requires m in ar && Hashed(m)
    ensures digest(m.body.data) in Keys(ar, digest)
  {
    if m != ar[|ar| - 1] { KeysAre(ar[..|ar| - 1], digest, m); }
  }

  lemma {:induction false} TargetOwn(ar: seq<Member>, digest: seq<byte> -> string, ks: seq<string>, m: Member)
    requires FilesAgree(ar) && m in ar && Hashed(m)
    ensures var h := digest(m.body.data);
      Target(ar, digest, ks, m.name) ==
        if h in ks && Keeper(ar, digest, h) != m.name then Some(Keeper(ar, digest, h)) else None
    decreases |ks|
  {
    if ks != [] {
      OwnGroup(ar, digest, ks[|ks| - 1], m);
      TargetOwn(ar, digest, ks[..|ks| - 1], m);
    }
  }

  /** The dictionary maps exactly the duplicates, each to the file that stays. */
  lemma DuplicatesMapped(ar: seq<Member>, digest: seq<byte> -> string, canonical: map<string, string>, m: Member)
    requires FilesAgree(ar) && IsCanonical(ar, digest, canonical) && m in ar && Hashed(m)
    ensures m.name in canonical <==> Duplicate(ar, digest, m)
    ensures m.name in canonical ==> canonical[m.name] == Keeper(ar, digest, digest(m.body.data))
  {
    KeysAre(ar, digest, m);
    TargetOwn(ar, digest, Keys(ar, digest), m);
  }

  /** And nothing but names of non-empty files is in it, whatever is repeated. */
  lemma {:induction false} TargetIsFile(ar: seq<Member>, digest: seq<byte> -> string, ks: seq<string>, n: string)
    returns (m: Member)
    requires Target(ar, digest, ks, n).Some?
    ensures m in ar && Hashed(m) && m.name == n
    decreases |ks|
  {
    var h := ks[|ks| - 1];
    if Redirects(ar, digest, h, n) {
      GroupIs(ar, digest, h, n);
      m :| m in ar && m.name == n && Hashed(m) && digest(m.body.data) == h;
    } else {
      m := TargetIsFile(ar, digest, ks[..|ks| - 1], n);
    }
  }

  // ----- pass 2: writing -----

  /** The writer: what has been written, its offset, and the bytes saved so far. */
  datatype Log = Log(out: seq<Entry>, pos: nat, saved: nat)

  function Rounded(n: nat): nat { (n + BLOCK - 1) / BLOCK * BLOCK }

  function Size(body: Body): nat { if body.File? then |body.data| else 0 }

  /** `addfile`: header blocks, then the data filled up to a whole block. */
  function Emit(l: Log, name: string, body: Body, extra: nat): Log {
    var start := l.pos + BLOCK * (1 + extra);
    Log(l.out + [Entry(name, body, start, extra)], start + Rounded(Size(body)), l.saved)
  }

  const PAD_PREFIX := "litebox/.align/"

  function Digits(n: nat): string {
    if n < 10 then ["0123456789"[n]] else Digits(n / 10) + ["0123456789"[n % 10]]
  }

  function PadName(pos: nat): string { PAD_PREFIX + Digits(pos) }

  /** How far to move so that the data of an entry with a one-block header starts on a boundary: not
      at all, or far enough for a padding entry with data of its own. */
  function Gap(pos: nat): nat {
    var mis := (pos + BLOCK) % ALIGN;
    if mis == 0 then 0 else if ALIGN - mis < 2 * BLOCK then 2 * ALIGN - mis else ALIGN - mis
  }

  function Pad(l: Log): Log {
    var gap := Gap(l.pos);
    if gap < BLOCK then l else Emit(l, PadName(l.pos), File(Zeros(gap - BLOCK)), 0)
  }

  function WriteMember(l: Log, m: Member, canonical: map<string, string>): Log {
    if m.body.File? && m.name in canonical then
      Emit(l, m.name, Symlink("/" + canonical[m.name]), m.linkExtra).(saved := l.saved + Size(m.body))
    else
      Emit(if Size(m.body) >= ALIGN then Pad(l) else l, m.name, m.body, m.extra)
  }

  function WriteAll(ar: seq<Member>, canonical: map<string, string>): Log {
    if ar == [] then Log([], 0, 0)
    else WriteMember(WriteAll(ar[..|ar| - 1], canonical), ar[|ar| - 1], canonical)
  }

  /** The gap, computed by the loop of the source. */
  method ComputeGap(pos: nat) returns (gap: nat)
    requires pos % BLOCK == 0
    ensures gap == Gap(pos)
  {
    var mis := (pos + BLOCK) % ALIGN;
    if mis == 0 { return 0; }
    gap := ALIGN - mis;
    assert mis % BLOCK == 0;
    while gap < BLOCK * 2
      invariant gap == ALIGN - mis || (gap == 2 * ALIGN - mis && ALIGN - mis < BLOCK * 2)
      decreases ALIGN - gap
    {
      gap := gap + ALIGN;
    }
  }

  lemma EmitOnBlock(l: Log, name: string, body: Body, extra: nat)
    requires l.pos % BLOCK == 0
    ensures Emit(l, name, body, extra).pos % BLOCK == 0
  {
    var k := (Size(body) + BLOCK - 1) / BLOCK;
    assert Emit(l, name, body, extra).pos == l.pos + BLOCK * (1 + extra + k);
  }

  lemma LookupEmit(l: Log, n: string, body: Body, extra: nat, name: string)
    ensures LookupEntry(Emit(l, n, body, extra).out, name) ==
      if n == name then Some(body) else LookupEntry(l.out, name)
  {
    var out := Emit(l, n, body, extra).out;
    assert out[..|out| - 1] == l.out;
  }

  /** The body of the rewriting loop of the source. */
  method WriteOne(l0: Log, m: Member, canonical: map<string, string>) returns (l: Log)
    requires l0.pos % BLOCK == 0
    ensures l == WriteMember(l0, m, canonical) && l.pos % BLOCK == 0
  {
    l := l0;
    if m.body.File? && m.name in canonical {
      EmitOnBlock(l, m.name, Symlink("/" + canonical[m.name]), m.linkExtra);
      l := Emit(l, m.name, Symlink("/" + canonical[m.name]), m.linkExtra).(saved := l.saved + Size(m.body));
      return;
    }
    if m.body.File? && |m.body.data| >= ALIGN {
      var gap := ComputeGap(l.pos);
      if gap > 0 {
        EmitOnBlock(l, PadName(l.pos), File(Zeros(gap - BLOCK)), 0);
        l := Emit(l, PadName(l.pos), File(Zeros(gap - BLOCK)), 0);
      }
    }
    EmitOnBlock(l, m.name, m.body, m.extra);
    l := Emit(l, m.name, m.body, m.extra);
  }

  /** Both passes of the source. */
  method Realign(ar: seq<Member>, digest: seq<byte> -> string) returns (canonical: map<string, string>, l: Log)
    ensures IsCanonical(ar, digest, canonical) && l == WriteAll(ar, canonical)
  {
    canonical := FindDuplicates(ar, digest);
    l := Log([], 0, 0);
    for i := 0 to |ar|
      invariant l == WriteAll(ar[..i], canonical) && l.pos % BLOCK == 0
    {
      assert ar[..i + 1][..i] == ar[..i];
      l := WriteOne(l, ar[i], canonical);
    }
    assert ar[..|ar|] == ar;
  }

  lemma GapAligns(pos: nat)
    requires pos % BLOCK == 0
    ensures Gap(pos) % BLOCK == 0 && (Gap(pos) == 0 || Gap(pos) >= 2 * BLOCK) && (pos + Gap(pos) + BLOCK) % ALIGN == 0
  {
    var p := pos / BLOCK + 1;
    var q, k := p / 128, p % 128;
    assert pos + BLOCK == BLOCK * p == ALIGN * q + BLOCK * k;
    Remainder(pos + BLOCK, q, BLOCK * k);
    if k > 0 {
      var extra := if k == 127 then 1 else 0;
      assert Gap(pos) == ALIGN * (1 + extra) - BLOCK * k;
      assert pos + Gap(pos) + BLOCK == ALIGN * (q + 1 + extra);
      Remainder(pos + Gap(pos) + BLOCK, q + 1 + extra, 0);
    }
  }

  lemma Remainder(a: nat, q: nat, rest: nat)
    requires a == ALIGN * q + rest && rest < ALIGN
    ensures a % ALIGN == rest
  {
  }

  lemma WholeBlocks(n: nat)
    requires n % BLOCK == 0
    ensures Rounded(n) == n
  {
  }

  lemma PadMoves(l: Log)
    requires l.pos % BLOCK == 0
    ensures Pad(l).pos == l.pos + Gap(l.pos)
  {
    var gap := Gap(l.pos);
    GapAligns(l.pos);
    if gap >= BLOCK {
      WholeBlocks(gap - BLOCK);
      assert |Zeros(gap - BLOCK)| == gap - BLOCK;
    }
  }

  /** Offsets stay on blocks, and after padding the data behind a one-block header is aligned. */
  lemma PadAligns(l: Log)
    requires l.pos % BLOCK == 0
    ensures Pad(l).pos % BLOCK == 0 && (Pad(l).pos + BLOCK) % ALIGN == 0
  {
    PadMoves(l);
    GapAligns(l.pos);
    SumOfBlocks(l.pos, Gap(l.pos));
  }

  lemma SumOfBlocks(a: nat, b: nat)
    requires a % BLOCK == 0 && b % BLOCK == 0
    ensures (a + b) % BLOCK == 0
  {
  }

  /** A member, written somewhere: on a boundary exactly if its header is a whole number of 64 KiB
      longer than one block. */
  ghost predicate Placed(out: seq<Entry>, m: Member) {
    exists e ::
      e in out && e.name == m.name && e.body == m.body && e.extra == m.extra &&
        (e.start % 65536 == 0 <==> m.extra % 128 == 0)
  }

  lemma EmitPlaced(l: Log, m: Member)
    requires (l.pos + BLOCK) % ALIGN == 0
    ensures Placed(Emit(l, m.name, m.body, m.extra).out, m)
  {
    var e := Entry(m.name, m.body, l.pos + BLOCK * (1 + m.extra), m.extra);
    BlocksOn((l.pos + BLOCK) / ALIGN, m.extra);
    assert e.start == ALIGN * ((l.pos + BLOCK) / ALIGN) + BLOCK * m.extra;
    assert e in Emit(l, m.name, m.body, m.extra).out;
  }

  lemma BlocksOn(q: nat, extra: nat)
    ensures (ALIGN * q + BLOCK * extra) % ALIGN == 0 <==> extra % 128 == 0
  {
    assert ALIGN * q + BLOCK * extra == ALIGN * (q + extra / 128) + BLOCK * (extra % 128);
    Remainder(ALIGN * q + BLOCK * extra, q + extra / 128, BLOCK * (extra % 128));
  }

  predicate Kept(m: Member, canonical: map<string, string>) { !(m.body.File? && m.name in canonical) }

  lemma WriteAligned(l: Log, m: Member, canonical: map<string, string>)
    requires l.pos % BLOCK == 0
    ensures WriteMember(l, m, canonical).pos % BLOCK == 0
    ensures Kept(m, canonical) && Size(m.body) >= ALIGN ==> Placed(WriteMember(l, m, canonical).out, m)
    ensures forall e :: e in l.out ==> e in WriteMember(l, m, canonical).out
  {
    if !Kept(m, canonical) {
      EmitOnBlock(l, m.name, Symlink("/" + canonical[m.name]), m.linkExtra);
    } else if Size(m.body) >= ALIGN {
      PadAligns(l);
      EmitOnBlock(Pad(l), m.name, m.body, m.extra);
      EmitPlaced(Pad(l), m);
    } else {
      EmitOnBlock(l, m.name, m.body, m.extra);
    }
  }

  /** Every file of at least 64 KiB that is kept is written, and its data start on a 64 KiB boundary
      exactly when the blocks its own header needs beyond the first fill whole multiples of 64 KiB;
      with one-block headers, always. Offsets are asked of the writer, so no earlier header matters. */
  lemma {:induction false} LargeFilesAligned(ar: seq<Member>, canonical: map<string, string>)
    ensures WriteAll(ar, canonical).pos % BLOCK == 0
    ensures forall m :: m in ar && m.body.File? && m.name !in canonical && |m.body.data| >= 65536 ==>
      Placed(WriteAll(ar, canonical).out, m)
  {
    if ar != [] {
      var last, rest := ar[|ar| - 1], ar[..|ar| - 1];
      LargeFilesAligned(rest, canonical);
      var l := WriteAll(rest, canonical);
      WriteAligned(l, last, canonical);
      forall m | m in ar && m.body.File? && m.name !in canonical && |m.body.data| >= 65536
        ensures Placed(WriteAll(ar, canonical).out, m)
      {
        if m != last {
          assert m in rest;
          assert Placed(l.out, m);
        }
      }
    }
  }

  /** A large file alone in an archive misses the boundary by exactly the header blocks it needs beyond the
      first, two of them for a path that is written with one extended header. */
  lemma LongNameMisaligned(name: string, data: seq<byte>, extra: nat)
    requires |data| >= ALIGN
    ensures WriteAll([Member(name, File(data), extra, 0)], map[]).out[1..] ==
      [Entry(name, File(data), ALIGN + extra * BLOCK, extra)]
  {
    var m := Member(name, File(data), extra, 0);
    LastMember([], m, map[]);
    assert [] + [m] == [m];
    assert Gap(0) == ALIGN - BLOCK && Pad(Log([], 0, 0)).pos == ALIGN - BLOCK;
  }

  // ----- meaning -----

  function Rewritten(body: Option<Body>, name: string, canonical: map<string, string>): Option<Body> {
    if body.Some? && body.value.File? && name in canonical then Some(Symlink("/" + canonical[name])) else body
  }

  /** Whether a padding entry is written in front of a member. */
  predicate Padded(l: Log, m: Member, canonical: map<string, string>) {
    Kept(m, canonical) && Size(m.body) >= ALIGN && Gap(l.pos) >= BLOCK
  }

  /** The zeros a reader finds under `name` because a padding entry of that name was written after the
      last member of that name. */
  function Cover(ar: seq<Member>, canonical: map<string, string>, name: string): Option<seq<byte>> {
    if ar == [] then None
    else
      var m, rest := ar[|ar| - 1], ar[..|ar| - 1];
      var l := WriteAll(rest, canonical);
      if m.name == name then None
      else if Padded(l, m, canonical) && PadName(l.pos) == name then Some(Zeros(Gap(l.pos) - BLOCK))
      else Cover(rest, canonical, name)
  }

  lemma LookupWritten(l: Log, m: Member, canonical: map<string, string>, name: string)
    ensures LookupEntry(WriteMember(l, m, canonical).out, name) ==
      if m.name == name then Rewritten(Some(m.body), name, canonical)
      else if Padded(l, m, canonical) && PadName(l.pos) == name then Some(File(Zeros(Gap(l.pos) - BLOCK)))
      else LookupEntry(l.out, name)
  {
    if !Kept(m, canonical) {
      LookupEmit(l, m.name, Symlink("/" + canonical[m.name]), m.linkExtra, name);
    } else {
      if Gap(l.pos) >= BLOCK {
        LookupEmit(l, PadName(l.pos), File(Zeros(Gap(l.pos) - BLOCK)), 0, name);
      }
      LookupEmit(if Size(m.body) >= ALIGN then Pad(l) else l, m.name, m.body, m.extra, name);
    }
  }

  /** What a reader finds: under a covered name the padding, under every other name what was there, or
      the link that replaced it. */
  lemma {:induction false} LookupRewritten(ar: seq<Member>, canonical: map<string, string>, name: string)
    ensures LookupEntry(WriteAll(ar, canonical).out, name) ==
      match Cover(ar, canonical, name)
      case Some(zeros) => Some(File(zeros))
      case None => Rewritten(LookupMember(ar, name), name, canonical)
  {
    if ar != [] {
      var m, rest := ar[|ar| - 1], ar[..|ar| - 1];
      LookupRewritten(rest, canonical, name);
      LookupWritten(WriteAll(rest, canonical), m, canonical, name);
    }
  }

  lemma {:induction false} LookupLast(ar: seq<Member>, name: string) returns (m: Member)
    requires LookupMember(ar, name).Some?
    ensures m in ar && m.name == name && LookupMember(ar, name) == Some(m.body)
  {
    m := ar[|ar| - 1];
    if m.name != name { m := LookupLast(ar[..|ar| - 1], name); }
  }

  lemma {:induction false} LookupAny(ar: seq<Member>, m: Member)
    requires m in ar
    ensures LookupMember(ar, m.name).Some?
  {
    if ar[|ar| - 1].name != m.name { LookupAny(ar[..|ar| - 1], m); }
  }

  /** A non-empty file is found under its name. */
  lemma LookupFile(ar: seq<Member>, m: Member)
    requires FilesAgree(ar) && m in ar && Hashed(m)
    ensures LookupMember(ar, m.name) == Some(m.body)
  {
    LookupAny(ar, m);
    var n := LookupLast(ar, m.name);
  }

  /** A replaced file is a link to a file that stays, which has the same contents: no link made by the
      pass leads to another one, and an empty file is never replaced. */
  lemma ReplacedFile(ar: seq<Member>, digest: seq<byte> -> string, canonical: map<string, string>, name: string,
                     data: seq<byte>)
    requires FilesAgree(ar) && Injective(ar, digest) && IsCanonical(ar, digest, canonical)
    requires LookupMember(ar, name) == Some(File(data)) && name in canonical
    ensures data != [] && canonical[name] != name && canonical[name] !in canonical
    ensures LookupMember(ar, canonical[name]) == Some(File(data))
  {
    var m := TargetIsFile(ar, digest, Keys(ar, digest), name);
    LookupFile(ar, m);
    DuplicatesMapped(ar, digest, canonical, m);
    var k := KeeperIs(ar, digest, m);
    DuplicatesMapped(ar, digest, canonical, k);
    LookupFile(ar, k);
  }

  ghost predicate Holds(at: string -> Option<Body>, dest: (string, string) -> string, name: string, data: seq<byte>) {
    exists hops: nat :: Follow(at, dest, name, hops) == Some(data)
  }

  /** A path leads to at most one contents. */
  lemma {:induction false} SameBytes(at: string -> Option<Body>, dest: (string, string) -> string, name: string,
                                     i: nat, j: nat)
    requires Follow(at, dest, name, i).Some? && Follow(at, dest, name, j).Some?
    ensures Follow(at, dest, name, i) == Follow(at, dest, name, j)
    decreases i
  {
    match at(name)
    case Some(Symlink(text)) => SameBytes(at, dest, dest(name, text), i - 1, j - 1);
    case Some(Hardlink(n)) => SameBytes(at, dest, n, i - 1, j - 1);
    case _ =>
  }

  /** What is found one link further is found. */
  lemma HoldsVia(at: string -> Option<Body>, dest: (string, string) -> string, name: string, next: string,
                 data: seq<byte>)
    requires at(name).Some? && Holds(at, dest, next, data)
    requires (at(name).value.Symlink? && next == dest(name, at(name).value.text)) || at(name).value == Hardlink(next)
    ensures Holds(at, dest, name, data)
  {
    var hops: nat :| Follow(at, dest, next, hops) == Some(data);
    assert Follow(at, dest, name, hops + 1) == Some(data);
  }

  /** An absolute link text means the member of that name. */
  ghost predicate Absolute(dest: (string, string) -> string) {
    forall n, k :: dest(n, "/" + k) == k
  }

  /** Every covered path already led to just the zeros that cover it, or nowhere. */
  ghost predicate Harmless(ar: seq<Member>, canonical: map<string, string>, dest: (string, string) -> string) {
    forall n, data :: Cover(ar, canonical, n).Some? && Holds(InMembers(ar), dest, n, data) ==>
      data == Cover(ar, canonical, n).value
  }

  /** What will be found under each name, told from the members, the dictionary and where padding goes. */
  function Seen(ar: seq<Member>, canonical: map<string, string>): string -> Option<Body> {
    (n: string) =>
      match Cover(ar, canonical, n)
      case Some(zeros) => Some(File(zeros))
      case None => Rewritten(LookupMember(ar, n), n, canonical)
  }

  /** The same with padding left aside: the members, and the links that replace some of them. */
  function Through(ar: seq<Member>, canonical: map<string, string>): string -> Option<Body> {
    (n: string) => Rewritten(LookupMember(ar, n), n, canonical)
  }

  /** Read by `at`, every link made by the pass leads to the file it replaces. */
  ghost predicate LinksTrue(ar: seq<Member>, canonical: map<string, string>, at: string -> Option<Body>,
                            dest: (string, string) -> string, names: iset<string>)
  {
    forall n, data :: n in names && n in canonical && LookupMember(ar, n) == Some(File(data)) ==>
      Holds(at, dest, canonical[n], data)
  }

  /** The names padding does not cover. */
  ghost function Bare(ar: seq<Member>, canonical: map<string, string>): iset<string> {
    iset n: string | Cover(ar, canonical, n).None?
  }

  /** Every path keeps its contents. */
  ghost predicate KeepsAll(ar: seq<Member>, canonical: map<string, string>, dest: (string, string) -> string) {
    forall name, data :: Holds(InMembers(ar), dest, name, data) ==>
      Holds(InEntries(WriteAll(ar, canonical).out), dest, name, data)
  }

  // Two archives read by any lookup functions, path by path.

  /** A file may have become a link that leads to the same contents; anything else is as it was. */
  ghost predicate Same(before: string -> Option<Body>, after: string -> Option<Body>,
                       dest: (string, string) -> string, n: string)
  {
    || after(n) == before(n)
    || (before(n).Some? && before(n).value.File? && after(n).Some? && after(n).value.Symlink? &&
        Holds(after, dest, dest(n, after(n).value.text), before(n).value.data))
  }

  /** A file now stands where the path led to nothing but the contents of that file. */
  ghost predicate Overlaid(before: string -> Option<Body>, after: string -> Option<Body>,
                           dest: (string, string) -> string, n: string)
  {
    after(n).Some? && after(n).value.File? &&
    forall data :: Holds(before, dest, n, data) ==> data == after(n).value.data
  }

  /** Paths that links lead from to none but each other. */
  ghost predicate Closed(at: string -> Option<Body>, dest: (string, string) -> string, paths: iset<string>) {
    forall n {:trigger Onward(at, dest, paths, n)} :: n in paths ==> Onward(at, dest, paths, n)
  }

  ghost predicate Onward(at: string -> Option<Body>, dest: (string, string) -> string, paths: iset<string>, n: string) {
    at(n).Some? ==>
      && (at(n).value.Symlink? ==> dest(n, at(n).value.text) in paths)
      && (at(n).value.Hardlink? ==> at(n).value.name in paths)
  }

  lemma {:induction false} StillThere(before: string -> Option<Body>, after: string -> Option<Body>,
                                      dest: (string, string) -> string,
                                      paths: iset<string>, name: string, hops: nat)
    requires Closed(before, dest, paths)
    requires forall n :: n in paths ==> Same(before, after, dest, n) || Overlaid(before, after, dest, n)
    requires name in paths && Follow(before, dest, name, hops).Some?
    ensures Holds(after, dest, name, Follow(before, dest, name, hops).value)
    decreases hops
  {
    var data := Follow(before, dest, name, hops).value;
    assert Onward(before, dest, paths, name);
    if Overlaid(before, after, dest, name) {
      assert Holds(before, dest, name, data);
      assert Follow(after, dest, name, 0) == Some(data);
    } else if after(name) != before(name) {
      HoldsVia(after, dest, name, dest(name, after(name).value.text), data);
    } else {
      match before(name).value
      case Symlink(text) =>
        StillThere(before, after, dest, paths, dest(name, text), hops - 1);
        HoldsVia(after, dest, name, dest(name, text), data);
      case Hardlink(n) =>
        StillThere(before, after, dest, paths, n, hops - 1);
        HoldsVia(after, dest, name, n, data);
      case _ =>
    }
  }

  lemma {:induction false} NothingNew(before: string -> Option<Body>, after: string -> Option<Body>,
                                      dest: (string, string) -> string,
                                      paths: iset<string>, name: string, hops: nat)
    requires Closed(before, dest, paths) && forall n :: n in paths ==> Same(before, after, dest, n)
    requires name in paths && Follow(after, dest, name, hops).Some?
    ensures Holds(before, dest, name, Follow(after, dest, name, hops).value)
    decreases hops
  {
    var data := Follow(after, dest, name, hops).value;
    assert Onward(before, dest, paths, name);
    if after(name) != before(name) {
      var next := dest(name, after(name).value.text);
      var k: nat :| Follow(after, dest, next, k) == Some(before(name).value.data);
      SameBytes(after, dest, next, k, hops - 1);
      assert Follow(before, dest, name, 0) == Some(data);
    } else {
      match before(name).value
      case Symlink(text) =>
        NothingNew(before, after, dest, paths, dest(name, text), hops - 1);
        HoldsVia(before, dest, name, dest(name, text), data);
      case Hardlink(n) =>
        NothingNew(before, after, dest, paths, n, hops - 1);
        HoldsVia(before, dest, name, n, data);
      case File(_) =>
        assert Follow(before, dest, name, 0) == Some(data);
      case Other =>
    }
  }

  /** Two archives that agree on paths closed under following lead from there to the same. */
  lemma {:induction false} SameFollow(f: string -> Option<Body>, g: string -> Option<Body>,
                                      dest: (string, string) -> string,
                                      paths: iset<string>, name: string, hops: nat)
    requires Closed(f, dest, paths) && name in paths && forall n :: n in paths ==> f(n) == g(n)
    ensures Follow(f, dest, name, hops) == Follow(g, dest, name, hops)
    decreases hops
  {
    assert Onward(f, dest, paths, name);
    if hops > 0 {
      match f(name)
      case Some(Symlink(text)) => SameFollow(f, g, dest, paths, dest(name, text), hops - 1);
      case Some(Hardlink(n)) => SameFollow(f, g, dest, paths, n, hops - 1);
      case _ =>
    }
  }

  lemma SameHolds(f: string -> Option<Body>, g: string -> Option<Body>, dest: (string, string) -> string,
                  paths: iset<string>, name: string, data: seq<byte>)
    requires Closed(f, dest, paths) && name in paths && forall n :: n in paths ==> f(n) == g(n)
    ensures Holds(f, dest, name, data) <==> Holds(g, dest, name, data)
  {
    forall hops: nat ensures Follow(f, dest, name, hops) == Follow(g, dest, name, hops) {
      SameFollow(f, g, dest, paths, name, hops);
    }
  }

  /** What is told beforehand is what is found afterwards. */
  lemma SeenIsFound(ar: seq<Member>, canonical: map<string, string>, dest: (string, string) -> string,
                    name: string, data: seq<byte>)
    ensures Holds(Seen(ar, canonical), dest, name, data)
       <==> Holds(InEntries(WriteAll(ar, canonical).out), dest, name, data)
  {
    var seen, after := Seen(ar, canonical), InEntries(WriteAll(ar, canonical).out);
    forall n ensures seen(n) == after(n) { LookupRewritten(ar, canonical, n); }
    var all := iset n: string | seen(n) == after(n);
    SameHolds(seen, after, dest, all, name, data);
  }

  /** The rewritten archive at one uncovered path. */
  lemma PathKept(ar: seq<Member>, canonical: map<string, string>, dest: (string, string) -> string, n: string)
    requires Absolute(dest) && LinksTrue(ar, canonical, Seen(ar, canonical), dest, Bare(ar, canonical))
    requires Cover(ar, canonical, n).None?
    ensures Same(InMembers(ar), InEntries(WriteAll(ar, canonical).out), dest, n)
  {
    LookupRewritten(ar, canonical, n);
    var body := LookupMember(ar, n);
    if body.Some? && body.value.File? && n in canonical {
      SeenIsFound(ar, canonical, dest, canonical[n], body.value.data);
      assert dest(n, "/" + canonical[n]) == canonical[n];
    }
  }

  /** For every archive and every dictionary: each path keeps its contents, through whatever links, if and
      only if no path with other contents has the name of a padding entry written after it and every link
      made by the pass, followed beforehand, leads to the file it replaces. */
  lemma ContentsKept(ar: seq<Member>, canonical: map<string, string>, dest: (string, string) -> string)
    requires Absolute(dest)
    ensures KeepsAll(ar, canonical, dest) <==>
      Harmless(ar, canonical, dest) && LinksTrue(ar, canonical, Seen(ar, canonical), dest, Bare(ar, canonical))
  {
    var before := InMembers(ar);
    if Harmless(ar, canonical, dest) && LinksTrue(ar, canonical, Seen(ar, canonical), dest, Bare(ar, canonical)) {
      forall name, data | Holds(before, dest, name, data)
        ensures Holds(InEntries(WriteAll(ar, canonical).out), dest, name, data)
      {
        KeptUnlessCovered(ar, canonical, dest, name, data);
      }
    }
    if KeepsAll(ar, canonical, dest) {
      forall n, data | Cover(ar, canonical, n).Some? && Holds(before, dest, n, data)
        ensures data == Cover(ar, canonical, n).value
      {
        CoverShows(ar, canonical, dest, n, data);
      }
      forall n, data | n in Bare(ar, canonical) && n in canonical && LookupMember(ar, n) == Some(File(data))
        ensures Holds(Seen(ar, canonical), dest, canonical[n], data)
      {
        assert Follow(before, dest, n, 0) == Some(data);
        assert Holds(before, dest, n, data);
        LinkLeads(ar, canonical, dest, n, data);
        SeenIsFound(ar, canonical, dest, canonical[n], data);
      }
    }
  }

  lemma CoverShows(ar: seq<Member>, canonical: map<string, string>, dest: (string, string) -> string,
                   n: string, data: seq<byte>)
    requires Cover(ar, canonical, n).Some? && Holds(InEntries(WriteAll(ar, canonical).out), dest, n, data)
    ensures data == Cover(ar, canonical, n).value
  {
    LookupRewritten(ar, canonical, n);
  }

  lemma LinkLeads(ar: seq<Member>, canonical: map<string, string>, dest: (string, string) -> string,
                  n: string, data: seq<byte>)
    requires Absolute(dest) && n in canonical && Cover(ar, canonical, n).None?
    requires LookupMember(ar, n) == Some(File(data)) && Holds(InEntries(WriteAll(ar, canonical).out), dest, n, data)
    ensures Holds(InEntries(WriteAll(ar, canonical).out), dest, canonical[n], data)
  {
    var after := InEntries(WriteAll(ar, canonical).out);
    LookupRewritten(ar, canonical, n);
    assert dest(n, "/" + canonical[n]) == canonical[n];
    var hops: nat :| Follow(after, dest, n, hops) == Some(data);
    assert Follow(after, dest, canonical[n], hops - 1) == Some(data);
  }

  lemma KeptUnlessCovered(ar: seq<Member>, canonical: map<string, string>, dest: (string, string) -> string,
                          name: string, data: seq<byte>)
    requires Absolute(dest) && Harmless(ar, canonical, dest)
    requires LinksTrue(ar, canonical, Seen(ar, canonical), dest, Bare(ar, canonical))
    requires Holds(InMembers(ar), dest, name, data)
    ensures Holds(InEntries(WriteAll(ar, canonical).out), dest, name, data)
  {
    var before, after := InMembers(ar), InEntries(WriteAll(ar, canonical).out);
    forall n ensures Same(before, after, dest, n) || Overlaid(before, after, dest, n) {
      if Cover(ar, canonical, n).None? {
        PathKept(ar, canonical, dest, n);
      } else {
        LookupRewritten(ar, canonical, n);
      }
    }
    var all := iset n: string | Same(before, after, dest, n) || Overlaid(before, after, dest, n);
    var hops: nat :| Follow(before, dest, name, hops) == Some(data);
    StillThere(before, after, dest, all, name, hops);
  }

  /** When a non-empty file is never repeated with other contents and the digest tells contents apart, every
      link made by the pass is true, so that padding is the only thing in the way. */
  lemma LinksAreTrue(ar: seq<Member>, digest: seq<byte> -> string, canonical: map<string, string>,
                     dest: (string, string) -> string)
    requires FilesAgree(ar) && Injective(ar, digest) && IsCanonical(ar, digest, canonical)
    requires Harmless(ar, canonical, dest)
    ensures LinksTrue(ar, canonical, Seen(ar, canonical), dest, Bare(ar, canonical))
  {
    forall n, data | n in Bare(ar, canonical) && n in canonical && LookupMember(ar, n) == Some(File(data))
      ensures Holds(Seen(ar, canonical), dest, canonical[n], data)
    {
      KeeperShows(ar, digest, canonical, dest, n, data);
    }
  }

  lemma KeeperShows(ar: seq<Member>, digest: seq<byte> -> string, canonical: map<string, string>,
                    dest: (string, string) -> string, n: string, data: seq<byte>)
    requires FilesAgree(ar) && Injective(ar, digest) && IsCanonical(ar, digest, canonical)
    requires Harmless(ar, canonical, dest) && n in canonical && LookupMember(ar, n) == Some(File(data))
    ensures Holds(Seen(ar, canonical), dest, canonical[n], data)
  {
    ReplacedFile(ar, digest, canonical, n, data);
    assert Follow(InMembers(ar), dest, canonical[n], 0) == Some(data);
    assert Holds(InMembers(ar), dest, canonical[n], data);
    assert Follow(Seen(ar, canonical), dest, canonical[n], 0) == Some(data);
  }

  /** Then every path keeps its contents if and only if padding is harmless. */
  lemma KeptIffHarmless(ar: seq<Member>, digest: seq<byte> -> string, canonical: map<string, string>,
                        dest: (string, string) -> string)
    requires FilesAgree(ar) && Injective(ar, digest) && IsCanonical(ar, digest, canonical) && Absolute(dest)
    ensures KeepsAll(ar, canonical, dest) <==> Harmless(ar, canonical, dest)
  {
    ContentsKept(ar, canonical, dest);
    if Harmless(ar, canonical, dest) { LinksAreTrue(ar, digest, canonical, dest); }
  }

  /** The rewritten archive means what the original meant: on any paths that lead to no padding entry,
      each leads, through whatever links, to exactly the same bytes. */
  lemma SameMeaning(ar: seq<Member>, canonical: map<string, string>, dest: (string, string) -> string,
                    paths: iset<string>, name: string, data: seq<byte>)
    requires Absolute(dest) && LinksTrue(ar, canonical, Seen(ar, canonical), dest, Bare(ar, canonical))
    requires Closed(InMembers(ar), dest, paths) && name in paths
    requires forall n :: n in paths ==> Cover(ar, canonical, n).None?
    ensures Holds(InMembers(ar), dest, name, data)
       <==> Holds(InEntries(WriteAll(ar, canonical).out), dest, name, data)
  {
    var before, after := InMembers(ar), InEntries(WriteAll(ar, canonical).out);
    forall n | n in paths ensures Same(before, after, dest, n) {
      PathKept(ar, canonical, dest, n);
    }
    if Holds(before, dest, name, data) {
      var hops: nat :| Follow(before, dest, name, hops) == Some(data);
      StillThere(before, after, dest, paths, name, hops);
    }
    if Holds(after, dest, name, data) {
      var hops: nat :| Follow(after, dest, name, hops) == Some(data);
      NothingNew(before, after, dest, paths, name, hops);
    }
  }

  /** Names of the padding directory are the only ones padding can cover. */
  lemma {:induction false} OnlyPadNames(ar: seq<Member>, canonical: map<string, string>, name: string)
    ensures Cover(ar, canonical, name).Some? ==> "litebox/.align/" <= name && !IsPlain(name)
  {
    if ar != [] { OnlyPadNames(ar[..|ar| - 1], canonical, name); }
  }

  predicate IsPlain(name: string) { !(PAD_PREFIX <= name) }

  /** No member lies in the padding directory. */
  predicate PlainNames(ar: seq<Member>) { forall m :: m in ar ==> IsPlain(m.name) }

  /** That is enough for padding to be harmless. */
  lemma PlainIsHarmless(ar: seq<Member>, canonical: map<string, string>, dest: (string, string) -> string)
    requires PlainNames(ar)
    ensures Harmless(ar, canonical, dest)
  {
    forall n, data | Holds(InMembers(ar), dest, n, data) ensures Cover(ar, canonical, n).None? {
      var m := LookupLast(ar, n);
      OnlyPadNames(ar, canonical, n);
    }
  }

  /** What anyone can check at a glance: with a digest that tells contents apart, no non-empty file repeated
      with other contents and no member in the padding directory, every path keeps its contents. */
  lemma PlainArchiveKept(ar: seq<Member>, digest: seq<byte> -> string, canonical: map<string, string>,
                         dest: (string, string) -> string)
    requires FilesAgree(ar) && Injective(ar, digest) && IsCanonical(ar, digest, canonical) && Absolute(dest)
    requires PlainNames(ar)
    ensures KeepsAll(ar, canonical, dest)
  {
    PlainIsHarmless(ar, canonical, dest);
    KeptIffHarmless(ar, digest, canonical, dest);
  }

  /** No member lies in the padding directory, and no link leads into it. */
  ghost predicate ClearOfPadding(ar: seq<Member>, dest: (string, string) -> string) {
    && PlainNames(ar)
    && (forall m :: m in ar && m.body.Symlink? ==> IsPlain(dest(m.name, m.body.text)))
    && (forall m :: m in ar && m.body.Hardlink? ==> IsPlain(m.body.name))
  }

  /** The names kept are names of members. */
  lemma {:induction false} TargetIsMember(ar: seq<Member>, digest: seq<byte> -> string, ks: seq<string>, n: string)
    returns (m: Member)
    requires Target(ar, digest, ks, n).Some?
    ensures m in ar && Some(m.name) == Target(ar, digest, ks, n)
    decreases |ks|
  {
    var h := ks[|ks| - 1];
    if Redirects(ar, digest, h, n) {
      var names := Group(ar, digest, h);
      var i := ShortestIsFirst(names);
      GroupIs(ar, digest, h, Shortest(names));
      m :| m in ar && m.name == Shortest(names) && Hashed(m) && digest(m.body.data) == h;
    } else {
      m := TargetIsMember(ar, digest, ks[..|ks| - 1], n);
    }
  }

  ghost function Plain(): iset<string> { iset n: string | IsPlain(n) }

  lemma PlainIsClosed(ar: seq<Member>, digest: seq<byte> -> string, canonical: map<string, string>,
                      dest: (string, string) -> string)
    requires ClearOfPadding(ar, dest) && IsCanonical(ar, digest, canonical) && Absolute(dest)
    ensures Closed(Through(ar, canonical), dest, Plain())
  {
    var at := Through(ar, canonical);
    forall n | n in Plain() ensures Onward(at, dest, Plain(), n) {
      if at(n).Some? {
        var m := LookupLast(ar, n);
        if m.body.File? && n in canonical {
          var k := TargetIsMember(ar, digest, Keys(ar, digest), n);
          assert dest(n, "/" + canonical[n]) == canonical[n];
        }
      }
    }
  }

  /** In an archive clear of padding, repeated names and colliding digests included, every path keeps its
      contents if and only if every link the dictionary makes, followed through the members and the other
      such links, leads to the file it replaces. */
  lemma PlainContentsKept(ar: seq<Member>, digest: seq<byte> -> string, canonical: map<string, string>,
                          dest: (string, string) -> string)
    requires ClearOfPadding(ar, dest) && IsCanonical(ar, digest, canonical) && Absolute(dest)
    ensures KeepsAll(ar, canonical, dest) <==> LinksTrue(ar, canonical, Through(ar, canonical), dest, Plain())
  {
    PlainIsHarmless(ar, canonical, dest);
    ContentsKept(ar, canonical, dest);
    forall n, data | n in canonical && LookupMember(ar, n) == Some(File(data))
      ensures n in Plain() && n in Bare(ar, canonical)
      ensures Holds(Through(ar, canonical), dest, canonical[n], data) <==>
        Holds(Seen(ar, canonical), dest, canonical[n], data)
    {
      var m := LookupLast(ar, n);
      OnlyPadNames(ar, canonical, n);
      ThroughIsSeen(ar, digest, canonical, dest, n, data);
    }
  }

  lemma ThroughIsSeen(ar: seq<Member>, digest: seq<byte> -> string, canonical: map<string, string>,
                      dest: (string, string) -> string, n: string, data: seq<byte>)
    requires ClearOfPadding(ar, dest) && IsCanonical(ar, digest, canonical) && Absolute(dest) && n in canonical
    ensures Holds(Through(ar, canonical), dest, canonical[n], data) <==>
      Holds(Seen(ar, canonical), dest, canonical[n], data)
  {
    var through, seen := Through(ar, canonical), Seen(ar, canonical);
    var k := TargetIsMember(ar, digest, Keys(ar, digest), n);
    PlainIsClosed(ar, digest, canonical, dest);
    forall p | p in Plain() ensures through(p) == seen(p) { OnlyPadNames(ar, canonical, p); }
    SameHolds(through, seen, dest, Plain(), canonical[n], data);
  }

  // ----- repeated names -----

  /** Two names, each of them twice, with the two contents the other way round the second time. */
  function Crossed(x: seq<byte>, y: seq<byte>): seq<Member> {
    [Member("a", File(x), 0, 0), Member("b", File(x), 0, 0), Member("b", File(y), 0, 0), Member("a", File(y), 0, 0)]
  }

  lemma OneMore(ar: seq<Member>, m: Member, digest: seq<byte> -> string, h: string)
    ensures Group(ar + [m], digest, h) ==
      Group(ar, digest, h) + if Hashed(m) && digest(m.body.data) == h then [m.name] else []
    ensures Keys(ar + [m], digest) ==
      var ks := Keys(ar, digest); if Hashed(m) && digest(m.body.data) !in ks then ks + [digest(m.body.data)] else ks
  {
    assert (ar + [m])[..|ar + [m]| - 1] == ar;
  }

  lemma CrossedGroup(x: seq<byte>, y: seq<byte>, digest: seq<byte> -> string, h: string)
    requires x != [] && y != [] && digest(x) != digest(y)
    ensures Group(Crossed(x, y), digest, h) ==
      if h == digest(x) then ["a", "b"] else if h == digest(y) then ["b", "a"] else []
    ensures Keys(Crossed(x, y), digest) == [digest(x), digest(y)]
  {
    var ar := Crossed(x, y);
    OneMore([], ar[0], digest, h);
    OneMore([] + [ar[0]], ar[1], digest, h);
    OneMore([] + [ar[0]] + [ar[1]], ar[2], digest, h);
    OneMore([] + [ar[0]] + [ar[1]] + [ar[2]], ar[3], digest, h);
    assert ar == [] + [ar[0]] + [ar[1]] + [ar[2]] + [ar[3]];
  }

  lemma ShortestOfTwo(p: string, q: string)
    ensures Shortest([p, q]) == if |q| < |p| then q else p
  {
    assert [p, q][..1] == [p];
  }

  /** Then each group sends the name it does not keep to the other. */
  lemma CrossedLinks(x: seq<byte>, y: seq<byte>, digest: seq<byte> -> string, canonical: map<string, string>)
    requires x != [] && y != [] && digest(x) != digest(y) && IsCanonical(Crossed(x, y), digest, canonical)
    ensures "a" in canonical && canonical["a"] == "b" && "b" in canonical && canonical["b"] == "a"
  {
    var ar := Crossed(x, y);
    CrossedGroup(x, y, digest, digest(x));
    CrossedGroup(x, y, digest, digest(y));
    ShortestOfTwo("a", "b");
    ShortestOfTwo("b", "a");
    assert Keeper(ar, digest, digest(x)) == "a" && Keeper(ar, digest, digest(y)) == "b";
    var ks := Keys(ar, digest);
    assert Target(ar, digest, ks, "a") == Some("b");
    assert Target(ar, digest, ks, "b") == Some("a");
  }

  /** So both paths end as links to each other and lead nowhere, where both led to a file before. */
  lemma {:induction false} CrossedLost(x: seq<byte>, y: seq<byte>, digest: seq<byte> -> string,
                                       canonical: map<string, string>,
                                       dest: (string, string) -> string, hops: nat)
    requires x != [] && y != [] && digest(x) != digest(y) && IsCanonical(Crossed(x, y), digest, canonical)
    requires Absolute(dest)
    ensures LookupMember(Crossed(x, y), "a") == Some(File(y)) && LookupMember(Crossed(x, y), "b") == Some(File(y))
    ensures Follow(InEntries(WriteAll(Crossed(x, y), canonical).out), dest, "a", hops) == None
    ensures Follow(InEntries(WriteAll(Crossed(x, y), canonical).out), dest, "b", hops) == None
    decreases hops
  {
    var ar := Crossed(x, y);
    CrossedLinks(x, y, digest, canonical);
    CrossedFiles(x, y);
    OnlyPadNames(ar, canonical, "a");
    OnlyPadNames(ar, canonical, "b");
    LookupRewritten(ar, canonical, "a");
    LookupRewritten(ar, canonical, "b");
    assert dest("a", "/" + "b") == "b" && dest("b", "/" + "a") == "a";
    if hops > 0 { CrossedLost(x, y, digest, canonical, dest, hops - 1); }
  }

  lemma CrossedFiles(x: seq<byte>, y: seq<byte>)
    ensures LookupMember(Crossed(x, y), "a") == Some(File(y)) && LookupMember(Crossed(x, y), "b") == Some(File(y))
  {
    var ar := Crossed(x, y);
    assert ar[|ar| - 1].name == "a" && ar[..3][2].name == "b";
    assert "a" != "b";
  }

  // ----- conservation -----

  function MemberBytes(m: Member): nat { Size(m.body) }

  function EntryBytes(e: Entry): nat { Size(e.body) }

  function Large(m: Member): nat { if Size(m.body) >= ALIGN then 1 else 0 }

  /** The bytes of all padding entries. */
  function PadBytes(ar: seq<Member>, canonical: map<string, string>): nat {
    if ar == [] then 0
    else
      var m, rest := ar[|ar| - 1], ar[..|ar| - 1];
      var l := WriteAll(rest, canonical);
      PadBytes(rest, canonical) + if Padded(l, m, canonical) then Gap(l.pos) - BLOCK else 0
  }

  lemma EmitBytes(l: Log, name: string, body: Body, extra: nat)
    ensures Total(EntryBytes, Emit(l, name, body, extra).out) == Total(EntryBytes, l.out) + Size(body)
  {
    Append(EntryBytes, l.out, [Entry(name, body, l.pos + BLOCK * (1 + extra), extra)]);
  }

  lemma MemberConserved(l: Log, m: Member, canonical: map<string, string>)
    ensures var l' := WriteMember(l, m, canonical);
      Total(EntryBytes, l'.out) + l'.saved ==
        Total(EntryBytes, l.out) + l.saved + Size(m.body) + if Padded(l, m, canonical) then Gap(l.pos) - BLOCK else 0
  {
    if !Kept(m, canonical) {
      EmitBytes(l, m.name, Symlink("/" + canonical[m.name]), m.linkExtra);
    } else {
      if Gap(l.pos) >= BLOCK {
        EmitBytes(l, PadName(l.pos), File(Zeros(Gap(l.pos) - BLOCK)), 0);
      }
      EmitBytes(if Size(m.body) >= ALIGN then Pad(l) else l, m.name, m.body, m.extra);
    }
  }

  /** Every byte of the original is either written or counted as saved, and what is written beyond
      that is at most 64 KiB of padding for each large file. */
  lemma {:induction false} BytesConserved(ar: seq<Member>, canonical: map<string, string>)
    ensures Total(EntryBytes, WriteAll(ar, canonical).out) + WriteAll(ar, canonical).saved ==
      Total(MemberBytes, ar) + PadBytes(ar, canonical)
    ensures PadBytes(ar, canonical) <= ALIGN * Total(Large, ar)
  {
    if ar != [] {
      var m, rest := ar[|ar| - 1], ar[..|ar| - 1];
      assert ar == rest + [m];
      BytesConserved(rest, canonical);
      Append(MemberBytes, rest, [m]);
      Append(Large, rest, [m]);
      var l := WriteAll(rest, canonical);
      MemberConserved(l, m, canonical);
      LargeFilesAligned(rest, canonical);
      GapIsSmall(l.pos);
    }
  }

  lemma GapIsSmall(pos: nat)
    requires pos % BLOCK == 0
    ensures Gap(pos) <= ALIGN + BLOCK
  {
    var p := pos / BLOCK + 1;
    assert pos + BLOCK == ALIGN * (p / 128) + BLOCK * (p % 128);
    Remainder(pos + BLOCK, p / 128, BLOCK * (p % 128));
  }

  // ----- a name clash -----

  /** A member with the name of a padding entry, one byte long, in front of a large file: its path
      leads to other bytes afterwards. */
  lemma PadNameClash(m: Member, big: Member)
    requires m == Member(PadName(1024), File([1]), 0, 0)
    requires big.name == "big" && Size(big.body) == ALIGN
    ensures LookupMember([m, big], m.name) == Some(File([1]))
    ensures LookupEntry(WriteAll([m, big], map[]).out, m.name) == Some(File(Zeros(ALIGN - 4 * BLOCK)))
  {
    var none: map<string, string> := map[];
    ClashCovers(m, big);
    LookupRewritten([m, big], none, m.name);
    assert [m, big][..1] == [m] && m.name[0] == 'l';
    assert LookupMember([m], m.name) == Some(m.body);
  }

  lemma ClashCovers(m: Member, big: Member)
    requires m == Member(PadName(1024), File([1]), 0, 0)
    requires big.name == "big" && Size(big.body) == ALIGN
    ensures Cover([m, big], map[], m.name) == Some(Zeros(ALIGN - 4 * BLOCK))
  {
    assert m.name[0] == 'l' && [m, big][..1] == [m];
    OneByteEnds(m);
    assert Gap(1024) == ALIGN - 3 * BLOCK;
  }

  lemma OneByteEnds(m: Member)
    requires m.body == File([1]) && m.extra == 0
    ensures WriteAll([m], map[]).pos == 1024
  {
    LastMember([], m, map[]);
    assert [] + [m] == [m];
    assert Rounded(1) == BLOCK;
  }

  lemma LastMember(ar: seq<Member>, m: Member, canonical: map<string, string>)
    ensures WriteAll(ar + [m], canonical) == WriteMember(WriteAll(ar, canonical), m, canonical)
    ensures forall n :: LookupMember(ar + [m], n) == if m.name == n then Some(m.body) else LookupMember(ar, n)
  {
    assert (ar + [m])[..|ar + [m]| - 1] == ar;
  }
}
