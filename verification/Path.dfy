/** Lexical path normalisation: a right-to-left scan with one counter, against the left-to-right
    stack that says what normalising means. */
module Path {

  /** `split('/')`: never empty, no piece contains a slash. */
  function Split(p: string): (cs: seq<string>)
    ensures cs != [] && forall i :: 0 <= i < |cs| ==> '/' !in cs[i]
  {
    if p == "" then [""]
    else
      var rest := Split(p[1..]);
      if p[0] == '/' then [""] + rest else [[p[0]] + rest[0]] + rest[1..]
  }

  function Join(cs: seq<string>): string {
    if cs == [] then "" else if |cs| == 1 then cs[0] else cs[0] + "/" + Join(cs[1..])
  }

  predicate IsAbsolute(p: string) { p != "" && p[0] == '/' }

  predicate Skipped(c: string) { c == "" || c == "." }

  /** A component that names something. */
  predicate IsName(c: string) { c != "" && c != "." && c != ".." }

  function Ups(n: nat): seq<string> { seq(n, _ => "..") }

  // ----- the stack -----

  function Push(stack: seq<string>, c: string): seq<string> {
    if Skipped(c) then stack
    else if c == ".." && stack != [] && stack[|stack| - 1] != ".." then stack[..|stack| - 1]
    else stack + [c]
  }

  function PushAll(stack: seq<string>, cs: seq<string>): seq<string>
    decreases |cs|
  {
    if cs == [] then stack else PushAll(Push(stack, cs[0]), cs[1..])
  }

  /** What normalising a list of components means. */
  function Forward(cs: seq<string>): seq<string> { PushAll([], cs) }

  /** The components of the normalised path, the empty root component of an absolute one included. */
  function Components(p: string): seq<string> {
    (if IsAbsolute(p) then [""] else []) + Forward(Split(p))
  }

  function Normalize(p: string): string { Join(Components(p)) }

  lemma {:induction false} PushAllConcat(stack: seq<string>, a: seq<string>, b: seq<string>)
    ensures PushAll(stack, a + b) == PushAll(PushAll(stack, a), b)
    decreases |a|
  {
    if a == [] {
      assert a + b == b;
    } else {
      assert (a + b)[1..] == a[1..] + b;
      PushAllConcat(Push(stack, a[0]), a[1..], b);
    }
  }

  // ----- the scan -----

  /** The filter of the reverse scan: what is kept (in path order) and the count left over. */
  function Scan(cs: seq<string>, parents: nat): (seq<string>, nat)
    decreases |cs|
  {
    if cs == [] then ([], parents)
    else
      var c, rest := cs[|cs| - 1], cs[..|cs| - 1];
      if Skipped(c) then Scan(rest, parents)
      else if c == ".." then Scan(rest, parents + 1)
      else if parents > 0 then Scan(rest, parents - 1)
      else var (kept, n) := Scan(rest, 0); (kept + [c], n)
  }

  /** `n` pending ".." met from the right are `n` pops on the stack of what lies to the left. */
  lemma {:induction false} ScanIsStack(cs: seq<string>, parents: nat)
    ensures var (kept, n) := Scan(cs, parents);
      Ups(n) + kept == PushAll(Forward(cs), Ups(parents))
    decreases |cs|
  {
    if cs == [] {
      PushUps([], parents);
    } else {
      var c, rest := cs[|cs| - 1], cs[..|cs| - 1];
      PushLast(cs);
      if Skipped(c) {
        ScanIsStack(rest, parents);
      } else if c == ".." {
        ScanIsStack(rest, parents + 1);
        OneUp(Forward(rest), parents);
      } else if parents > 0 {
        ScanIsStack(rest, parents - 1);
        NameUp(Forward(rest), c, parents - 1);
      } else {
        ScanIsStack(rest, 0);
        var (kept, n) := Scan(rest, 0);
        assert Ups(n) + (kept + [c]) == (Ups(n) + kept) + [c];
      }
    }
  }

  lemma PushLast(cs: seq<string>)
    requires cs != []
    ensures Forward(cs) == Push(Forward(cs[..|cs| - 1]), cs[|cs| - 1])
  {
    var c, rest := cs[|cs| - 1], cs[..|cs| - 1];
    assert cs == rest + [c];
    PushAllConcat([], rest, [c]);
  }

  lemma OneUp(stack: seq<string>, n: nat)
    ensures PushAll(stack, Ups(n + 1)) == PushAll(Push(stack, ".."), Ups(n))
  {
    assert Ups(n + 1)[1..] == Ups(n);
  }

  /** A name and one ".." cancel. */
  lemma NameUp(stack: seq<string>, c: string, n: nat)
    requires IsName(c)
    ensures PushAll(Push(stack, c), Ups(n + 1)) == PushAll(stack, Ups(n))
  {
    OneUp(stack + [c], n);
    assert (stack + [c])[..|stack|] == stack;
  }

  lemma {:induction false} PushUps(stack: seq<string>, n: nat)
    requires stack != [] ==> stack[|stack| - 1] == ".."
    ensures PushAll(stack, Ups(n)) == stack + Ups(n)
    decreases n
  {
    if n == 0 {
      assert stack + Ups(0) == stack;
    } else {
      assert Ups(n)[1..] == Ups(n - 1);
      PushUps(stack + [".."], n - 1);
      assert (stack + [".."]) + Ups(n - 1) == stack + Ups(n);
    }
  }

  lemma ScanLast(cs: seq<string>, i: nat, parents: nat)
    requires i < |cs|
    ensures Scan(cs[..i + 1], parents) ==
      if Skipped(cs[i]) then Scan(cs[..i], parents)
      else if cs[i] == ".." then Scan(cs[..i], parents + 1)
      else if parents > 0 then Scan(cs[..i], parents - 1)
      else (Scan(cs[..i], 0).0 + [cs[i]], Scan(cs[..i], 0).1)
  {
    assert cs[..i + 1][..i] == cs[..i];
  }

  function Reversed(cs: seq<string>): seq<string> {
    seq(|cs|, i requires 0 <= i < |cs| => cs[|cs| - 1 - i])
  }

  lemma ReversedLast(cs: seq<string>, c: string)
    ensures Reversed(cs + [c]) == [c] + Reversed(cs)
  {
  }

  lemma ReversedUps(cs: seq<string>, n: nat)
    ensures Reversed(cs + Ups(n)) == Ups(n) + Reversed(cs)
  {
  }

  /** The filter: what is kept, last first, and the count left over. */
  method FilterBack(cs: seq<string>) returns (rev: seq<string>, parentCount: nat)
    ensures Reversed(rev) == Scan(cs, 0).0 && parentCount == Scan(cs, 0).1
  {
    rev, parentCount := [], 0;
    var i := |cs|;
    assert cs[..i] == cs && Reversed(rev) == [];
    while i > 0
      invariant 0 <= i <= |cs|
      invariant Scan(cs, 0).0 == Scan(cs[..i], parentCount).0 + Reversed(rev)
      invariant Scan(cs, 0).1 == Scan(cs[..i], parentCount).1
    {
      i := i - 1;
      var c := cs[i];
      ScanLast(cs, i, parentCount);
      if c == "" || c == "." {
      } else if c == ".." {
        parentCount := parentCount + 1;
      } else if parentCount > 0 {
        parentCount := parentCount - 1;
      } else {
        ReversedLast(rev, c);
        rev := rev + [c];
      }
    }
  }

  /** The reverse scan of the source: for every path it yields what the stack yields. */
  method NormalizedComponents(p: string) returns (r: seq<string>)
    ensures r == Components(p)
  {
    var cs := Split(p);
    var rev, parentCount := FilterBack(cs);
    ScanIsStack(cs, 0);
    assert Ups(0) == [];
    ReversedUps(rev, parentCount);
    rev := rev + Ups(parentCount);
    if IsAbsolute(p) {
      ReversedLast(rev, "");
      rev := rev + [""];
    }
    r := Reversed(rev);
  }

  method Normalized(p: string) returns (r: string)
    ensures r == Normalize(p)
  {
    var cs := NormalizedComponents(p);
    r := Join(cs);
  }

  // ----- how many ".." remain -----

  function Rise(cs: seq<string>): int {
    if cs == [] then 0
    else
      var c := cs[|cs| - 1];
      Rise(cs[..|cs| - 1]) + (if c == ".." then 1 else if IsName(c) then -1 else 0)
  }

  ghost predicate Normal(k: nat, names: seq<string>, stack: seq<string>) {
    stack == Ups(k) + names && forall i :: 0 <= i < |names| ==> IsName(names[i])
  }

  /** The largest excess of ".." over names in any prefix. */
  ghost predicate IsPeak(cs: seq<string>, k: nat) {
    && (forall i :: 0 <= i <= |cs| ==> Rise(cs[..i]) <= k)
    && (exists i :: 0 <= i <= |cs| && Rise(cs[..i]) == k)
  }

  lemma PeakStep(rest: seq<string>, c: string, k: nat)
    requires IsPeak(rest, k)
    ensures IsPeak(rest + [c], if Rise(rest + [c]) > k then Rise(rest + [c]) else k)
  {
    var cs := rest + [c];
    forall i | 0 <= i <= |rest| ensures cs[..i] == rest[..i] {}
    assert cs[..|cs|] == cs;
    var j :| 0 <= j <= |rest| && Rise(rest[..j]) == k;
    assert Rise(cs[..j]) == k;
  }

  /** Pushing one component onto a run of ".." followed by names. */
  lemma NormalPush(k: nat, names: seq<string>, stack: seq<string>, c: string) returns (k': nat, names': seq<string>)
    requires Normal(k, names, stack)
    ensures Normal(k', names', Push(stack, c))
    ensures c == ".." && names == [] ==> k' == k + 1 && names' == []
    ensures !(c == ".." && names == []) ==> k' == k
    ensures |names'| - k' == |names| - k - (if c == ".." then 1 else if IsName(c) then -1 else 0)
  {
    k', names' := k, names;
    if !Skipped(c) {
      if c == ".." {
        if names == [] {
          k' := k + 1;
          assert Ups(k) + [".."] == Ups(k + 1) + [];
        } else {
          names' := names[..|names| - 1];
          assert (Ups(k) + names)[..k + |names| - 1] == Ups(k) + names';
        }
      } else {
        names' := names + [c];
        assert (Ups(k) + names) + [c] == Ups(k) + names';
      }
    }
  }

  /** The result is a run of ".." followed by names. The number of ".." is the largest excess of ".."
      over names in any prefix of the path, and the names number that much more than the total. */
  lemma {:induction false} ForwardShape(cs: seq<string>) returns (k: nat, names: seq<string>)
    ensures Normal(k, names, Forward(cs)) && IsPeak(cs, k) && |names| == k - Rise(cs)
    decreases |cs|
  {
    if cs == [] {
      k, names := 0, [];
      assert cs[..0] == [] && Ups(0) + [] == [];
    } else {
      var c, rest := cs[|cs| - 1], cs[..|cs| - 1];
      assert cs == rest + [c];
      var n, ns := ForwardShape(rest);
      PushAllConcat([], rest, [c]);
      assert Forward(cs) == Push(Forward(rest), c);
      PeakStep(rest, c, n);
      k, names := NormalPush(n, ns, Forward(rest), c);
    }
  }

  // ----- the rules of normalising, one by one -----

  /** A list without its "." and empty components. */
  function Stripped(cs: seq<string>): seq<string> {
    if cs == [] then []
    else if cs[0] == "" || cs[0] == "." then Stripped(cs[1..])
    else [cs[0]] + Stripped(cs[1..])
  }

  /** "." and empty components do not matter. */
  lemma {:induction false} DotsDoNotMatter(stack: seq<string>, cs: seq<string>)
    ensures PushAll(stack, Stripped(cs)) == PushAll(stack, cs)
    decreases |cs|
  {
    if cs != [] {
      DotsDoNotMatter(Push(stack, cs[0]), cs[1..]);
      assert cs[0] != "" && cs[0] != "." ==> ([cs[0]] + Stripped(cs[1..]))[1..] == Stripped(cs[1..]);
    }
  }

  /** A name followed by ".." goes away with it, wherever the two stand. */
  lemma NameThenUp(a: seq<string>, c: string, b: seq<string>)
    requires c != "" && c != "." && c != ".."
    ensures Forward(a + [c, ".."] + b) == Forward(a + b)
  {
    PushAllConcat([], a + [c, ".."], b);
    PushAllConcat([], a, [c, ".."]);
    PushAllConcat([], a, b);
    var st := Forward(a);
    assert [c, ".."][1..] == [".."] && [".."][1..] == [];
    assert (st + [c])[..|st|] == st;
  }

  /** What is left is kept: a run of ".." and then names normalises to itself. */
  lemma UpsThenNames(k: nat, names: seq<string>)
    requires forall i :: 0 <= i < |names| ==> names[i] != "" && names[i] != "." && names[i] != ".."
    ensures Forward(Ups(k) + names) == Ups(k) + names
  {
    PushAllConcat([], Ups(k), names);
    PushUps([], k);
    assert [] + Ups(k) == Ups(k);
    PushNames(Ups(k), names);
  }

  /** And nothing else is left: no component of a normalised path is ".", and none is empty but the root of
      an absolute one, which is always there. */
  lemma NoDots(p: string, i: nat)
    requires i < |Components(p)|
    ensures Components(p)[i] != "."
    ensures Components(p)[i] == "" <==> i == 0 && p != "" && p[0] == '/'
  {
    var k, names := ForwardShape(Split(p));
  }

  // ----- composition and idempotence -----

  lemma {:induction false} PushNames(stack: seq<string>, names: seq<string>)
    requires forall i :: 0 <= i < |names| ==> IsName(names[i])
    ensures PushAll(stack, names) == stack + names
    decreases |names|
  {
    if names == [] {
      assert stack + names == stack;
    } else {
      PushNames(stack + [names[0]], names[1..]);
      assert (stack + [names[0]]) + names[1..] == stack + names;
    }
  }

  lemma ForwardIsNormal(cs: seq<string>)
    ensures Forward(Forward(cs)) == Forward(cs)
  {
    var k, names := ForwardShape(cs);
    PushAllConcat([], Ups(k), names);
    PushUps([], k);
    assert [] + Ups(k) == Ups(k);
    PushNames(Ups(k), names);
  }

  /** Normalising a concatenation is normalising after the left part has been normalised. */
  lemma Compose(a: seq<string>, b: seq<string>)
    ensures Forward(a + b) == Forward(Forward(a) + b)
  {
    PushAllConcat([], a, b);
    PushAllConcat([], Forward(a), b);
    ForwardIsNormal(a);
  }

  lemma {:induction false} SplitJoin(cs: seq<string>)
    requires cs != [] && forall i :: 0 <= i < |cs| ==> '/' !in cs[i]
    ensures Split(Join(cs)) == cs
    decreases |cs|, |cs[0]|
  {
    var p := Join(cs);
    if cs[0] == "" {
      if |cs| > 1 {
        assert p == "/" + Join(cs[1..]);
        assert p[1..] == Join(cs[1..]);
        SplitJoin(cs[1..]);
      }
    } else {
      var cs' := cs[0 := cs[0][1..]];
      assert cs'[1..] == cs[1..];
      assert p[1..] == Join(cs') && p[0] == cs[0][0];
      SplitJoin(cs');
      assert [cs[0][0]] + cs[0][1..] == cs[0];
    }
  }

  lemma {:induction false} JoinSplit(p: string)
    ensures Join(Split(p)) == p
    ensures IsAbsolute(p) <==> |Split(p)| > 1 && Split(p)[0] == ""
  {
    if p != "" {
      JoinSplit(p[1..]);
      var rest := Split(p[1..]);
      if p[0] == '/' {
        assert Split(p)[1..] == rest;
      } else {
        assert Split(p)[1..] == rest[1..];
      }
    }
  }

  lemma {:induction false} PushAllClean(stack: seq<string>, cs: seq<string>)
    requires forall i :: 0 <= i < |stack| ==> '/' !in stack[i] && !Skipped(stack[i])
    requires forall i :: 0 <= i < |cs| ==> '/' !in cs[i]
    ensures forall i :: 0 <= i < |PushAll(stack, cs)| ==>
      '/' !in PushAll(stack, cs)[i] && !Skipped(PushAll(stack, cs)[i])
    decreases |cs|
  {
    if cs != [] { PushAllClean(Push(stack, cs[0]), cs[1..]); }
  }

  /** What comes back when a normalised path is split again. A bare root has been joined to the empty
      string by then, which is relative. */
  lemma Reread(p: string)
    ensures Forward(Split(Normalize(p))) == Forward(Split(p))
    ensures IsAbsolute(Normalize(p)) <==> IsAbsolute(p) && Forward(Split(p)) != []
  {
    var cs, st := Components(p), Forward(Split(p));
    PushAllClean([], Split(p));
    JoinSplit(Normalize(p));
    if st == [] {
      assert Normalize(p) == "";
      assert Forward([""]) == [];
    } else {
      SplitJoin(cs);
      ForwardIsNormal(Split(p));
      if IsAbsolute(p) {
        PushAllConcat([], [""], st);
        assert Forward([""]) == [];
      } else {
        assert cs == st;
      }
    }
  }

  /** Normalising twice is normalising once, for every string, the bare root included. */
  lemma Idempotent(p: string)
    ensures Normalize(Normalize(p)) == Normalize(p)
  {
    Reread(p);
    if Forward(Split(p)) == [] {
      assert Normalize(p) == "";
    }
  }
}
