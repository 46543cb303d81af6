/** What a compressed relocation table denotes, entry by entry and by position, apart from any decoder: the
    Relative Relocation Table of the System V generic ABI. */
module RelrStream {
  import opened Bytes
  import opened Memory
  import opened Relr

  // ----- bits -----

  /** `w` in binary has a one at place `i`: an odd number of two-to-the-`i`, and less than one more. */
  ghost predicate OneAt(w: nat, i: nat) {
    exists high: nat, low: nat :: Split(w, i, high, low)
  }

  predicate Split(w: nat, i: nat, high: nat, low: nat) {
    w == (2 * high + 1) * Pow2(i) + low && low < Pow2(i)
  }

  lemma {:induction false} BitIs(w: nat, i: nat)
    ensures Bit(w, i) <==> OneAt(w, i)
    decreases i
  {
    if i == 0 {
      if w % 2 == 1 { assert Split(w, 0, w / 2, 0); }
    } else {
      BitIs(w / 2, i - 1);
      if OneAt(w / 2, i - 1) {
        var high: nat, low: nat :| Split(w / 2, i - 1, high, low);
        Doubled(w, high, low, Pow2(i - 1));
        assert Split(w, i, high, 2 * low + w % 2);
      }
      if OneAt(w, i) {
        var high: nat, low: nat :| Split(w, i, high, low);
        Halved(w, high, low, Pow2(i - 1));
        assert Split(w / 2, i - 1, high, low / 2);
      }
    }
  }

  lemma Doubled(w: nat, high: nat, low: nat, p: nat)
    requires w / 2 == (2 * high + 1) * p + low && low < p
    ensures w == (2 * high + 1) * (2 * p) + (2 * low + w % 2) && 2 * low + w % 2 < 2 * p
  {
    assert (2 * high + 1) * (2 * p) == 2 * ((2 * high + 1) * p);
  }

  lemma Halved(w: nat, high: nat, low: nat, p: nat)
    requires w == (2 * high + 1) * (2 * p) + low && low < 2 * p
    ensures w / 2 == (2 * high + 1) * p + low / 2 && low / 2 < p
  {
    assert (2 * high + 1) * (2 * p) == 2 * ((2 * high + 1) * p);
  }

  // ----- entries -----

  /** The current address before entry `k`: eight past the last address entry, or 0 without one, and 504 further
      for every bitmap since. */
  ghost predicate IsCurrent(words: seq<nat>, k: nat, a: nat)
    requires k <= |words|
  {
    FromStart(words, k, a) || exists j :: 0 <= j < k && FromAddress(words, j, k, a)
  }

  predicate FromStart(words: seq<nat>, k: nat, a: nat)
    requires k <= |words|
  {
    (forall i :: 0 <= i < k ==> words[i] % 2 == 1) && a == 504 * k % WORD
  }

  predicate FromAddress(words: seq<nat>, j: nat, k: nat, a: nat)
    requires j < k <= |words|
  {
    && words[j] % 2 == 0 && (forall i :: j < i < k ==> words[i] % 2 == 1)
    && a == (words[j] + 8 + 504 * (k - j - 1)) % WORD
  }

  /** Entry `k` denotes the slot `a`: it is an address entry with that address, or a bitmap with a one at place
      `i`, from 1 on, and `a` is `i - 1` words past the current address. */
  ghost predicate Denotes(words: seq<nat>, k: nat, a: nat)
    requires k < |words|
  {
    if words[k] % 2 == 0 then a == words[k]
    else
      exists i: nat, cur: nat ::
        i >= 1 && IsCurrent(words, k, cur) && OneAt(words[k], i) && a == (cur + 8 * (i - 1)) % WORD
  }

  // ----- the decoder denotes the same -----

  function Advance(word: nat, cur: nat): nat {
    if word % 2 == 0 then (word + 8) % WORD else (cur + 504) % WORD
  }

  /** The current address after `k` entries, starting at `cur`. */
  function After(words: seq<nat>, cur: nat, k: nat): nat
    requires k <= |words|
  {
    if k == 0 then cur else Advance(words[k - 1], After(words, cur, k - 1))
  }

  lemma {:induction false} AfterTail(words: seq<nat>, cur: nat, k: nat)
    requires k < |words|
    ensures After(words, cur, k + 1) == After(words[1..], Advance(words[0], cur), k)
    decreases k
  {
    if k > 0 { AfterTail(words, cur, k - 1); }
  }

  lemma {:induction false} AfterIsCurrent(words: seq<nat>, k: nat)
    requires k <= |words|
    ensures IsCurrent(words, k, After(words, 0, k))
    decreases k
  {
    if k == 0 {
      assert FromStart(words, 0, 0);
    } else {
      AfterIsCurrent(words, k - 1);
      var a, a' := After(words, 0, k - 1), After(words, 0, k);
      if words[k - 1] % 2 == 0 {
        assert FromAddress(words, k - 1, k, a');
      } else if FromStart(words, k - 1, a) {
        StillFromStart(words, k - 1, a);
      } else {
        var j :| 0 <= j < k - 1 && FromAddress(words, j, k - 1, a);
        StillFromAddress(words, j, k - 1, a);
      }
    }
  }

  lemma StillFromStart(words: seq<nat>, k: nat, a: nat)
    requires k < |words| && FromStart(words, k, a) && words[k] % 2 == 1
    ensures FromStart(words, k + 1, (a + 504) % WORD)
  {
    Further(504 * k, 504);
  }

  lemma StillFromAddress(words: seq<nat>, j: nat, k: nat, a: nat)
    requires j < k < |words| && FromAddress(words, j, k, a) && words[k] % 2 == 1
    ensures FromAddress(words, j, k + 1, (a + 504) % WORD)
  {
    Further(words[j] + 8 + 504 * (k - j - 1), 504);
  }

  lemma Further(x: nat, d: nat)
    ensures (x % WORD + d) % WORD == (x + d) % WORD
  {
  }

  lemma OnlyOneCurrent(words: seq<nat>, k: nat, a: nat, b: nat)
    requires k <= |words| && IsCurrent(words, k, a) && IsCurrent(words, k, b)
    ensures a == b
  {
    if !FromStart(words, k, a) {
      var i :| 0 <= i < k && FromAddress(words, i, k, a);
      assert !FromStart(words, k, b);
      var j :| 0 <= j < k && FromAddress(words, j, k, b);
      assert i == j;
    }
  }

  /** What one entry contributes, with the current address known. */
  ghost predicate Gives(word: nat, cur: nat, a: nat) {
    if word % 2 == 0 then a == word else exists i: nat :: i >= 1 && OneAt(word, i) && a == (cur + 8 * (i - 1)) % WORD
  }

  lemma EntryGives(word: nat, cur: nat, a: nat)
    ensures a in (if word % 2 == 0 then [word] else BitSlots(word / 2, cur)) <==> Gives(word, cur, a)
  {
    if word % 2 == 1 {
      BitSlotsDenote(word / 2, cur, a);
      if a in BitSlots(word / 2, cur) {
        var i: nat :| Bit(word / 2, i) && a == SlotAt(cur, i);
        BitIs(word, i + 1);
      }
      if Gives(word, cur, a) {
        var i: nat :| i >= 1 && OneAt(word, i) && a == (cur + 8 * (i - 1)) % WORD;
        BitIs(word, i);
        assert Bit(word / 2, i - 1) && a == SlotAt(cur, i - 1);
      }
    }
  }

  lemma {:induction false} SlotsGive(words: seq<nat>, cur: nat, a: nat)
    ensures a in Slots(words, cur) <==> exists k :: 0 <= k < |words| && Gives(words[k], After(words, cur, k), a)
    decreases |words|
  {
    if words != [] {
      var rest, next := words[1..], Advance(words[0], cur);
      EntryGives(words[0], cur, a);
      SlotsGive(rest, next, a);
      assert Slots(words, cur) ==
        (if words[0] % 2 == 0 then [words[0]] else BitSlots(words[0] / 2, cur)) + Slots(rest, next);
      forall k | 0 <= k < |rest| ensures rest[k] == words[k + 1] && After(rest, next, k) == After(words, cur, k + 1) {
        AfterTail(words, cur, k);
      }
      if a in Slots(rest, next) {
        var k :| 0 <= k < |rest| && Gives(rest[k], After(rest, next, k), a);
        assert Gives(words[k + 1], After(words, cur, k + 1), a);
      }
      if k :| 0 <= k < |words| && Gives(words[k], After(words, cur, k), a) {
        if k > 0 { assert Gives(rest[k - 1], After(rest, next, k - 1), a); }
      }
    }
  }

  /** The slots of a stream are exactly the ones its entries denote. */
  lemma StreamDenotes(words: seq<nat>, a: nat)
    ensures a in Slots(words, 0) <==> exists k :: 0 <= k < |words| && Denotes(words, k, a)
  {
    SlotsGive(words, 0, a);
    forall k | 0 <= k < |words| ensures Gives(words[k], After(words, 0, k), a) <==> Denotes(words, k, a) {
      GivesIsDenotes(words, k, a);
    }
  }

  lemma GivesIsDenotes(words: seq<nat>, k: nat, a: nat)
    requires k < |words|
    ensures Gives(words[k], After(words, 0, k), a) <==> Denotes(words, k, a)
  {
    AfterIsCurrent(words, k);
    CurrentGives(words, k, After(words, 0, k), a);
  }

  lemma CurrentGives(words: seq<nat>, k: nat, cur: nat, a: nat)
    requires k < |words| && IsCurrent(words, k, cur)
    ensures Gives(words[k], cur, a) <==> Denotes(words, k, a)
  {
    if words[k] % 2 == 1 {
      if Denotes(words, k, a) {
        var i: nat, cur': nat :|
          i >= 1 && IsCurrent(words, k, cur') && OneAt(words[k], i) && a == (cur' + 8 * (i - 1)) % WORD;
        OnlyOneCurrent(words, k, cur, cur');
      }
      if Gives(words[k], cur, a) {
        var i: nat :| i >= 1 && OneAt(words[k], i) && a == (cur + 8 * (i - 1)) % WORD;
      }
    }
  }

  /** So on a well-formed stream a successful decoder has added the base, modulo 2^64, exactly once to every
      slot denoted and changed nothing else. */
  lemma DenotedSlotFixed(m: Cells, base: nat, words: seq<nat>, k: nat, a: nat)
    requires Climbs(words, 0) && FixAll(m, base, Slots(words, 0)).0 == Ok && k < |words| && Denotes(words, k, a)
    ensures SlotFixed(m, FixAll(m, base, Slots(words, 0)).1, base, a)
  {
    StreamDenotes(words, a);
    RelrMeaning(m, base, words);
    var j :| 0 <= j < |Slots(words, 0)| && Slots(words, 0)[j] == a;
  }

  lemma UndenotedByteKept(m: Cells, base: nat, words: seq<nat>, x: nat)
    requires x in m
    requires forall k, a :: 0 <= k < |words| && Denotes(words, k, a) ==> !(base + a <= x < base + a + 8)
    ensures var m' := FixAll(m, base, Slots(words, 0)).1; x in m' && m'[x] == m[x]
  {
    var slots := Slots(words, 0);
    FixOutside(m, base, slots);
    forall j | 0 <= j < |slots| ensures !InSlot(base, slots[j], x) {
      StreamDenotes(words, slots[j]);
    }
  }
}
