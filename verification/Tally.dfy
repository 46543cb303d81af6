/** Sums of a weight over a sequence of threads (or archive members): the arithmetic that every
    counting invariant in this project rests on. */
module Tally {

  function Total<T>(w: T -> nat, ts: seq<T>): nat {
    if ts == [] then 0 else w(ts[0]) + Total(w, ts[1..])
  }

  /** Replacing one element moves the total by the difference of the two weights. */
  lemma {:induction false} Replace<T>(w: T -> nat, ts: seq<T>, i: nat, t: T)
    requires i < |ts|
    ensures Total(w, ts[i := t]) + w(ts[i]) == Total(w, ts) + w(t)
  {
    if i == 0 {
      assert ts[i := t][1..] == ts[1..];
    } else {
      assert ts[i := t][1..] == ts[1..][i - 1 := t];
      Replace(w, ts[1..], i - 1, t);
    }
  }

  lemma {:induction false} AtLeastOne<T>(w: T -> nat, ts: seq<T>, i: nat)
    requires i < |ts|
    ensures w(ts[i]) <= Total(w, ts)
  {
    if i > 0 {
      AtLeastOne(w, ts[1..], i - 1);
    }
  }

  lemma {:induction false} AtLeastTwo<T>(w: T -> nat, ts: seq<T>, i: nat, j: nat)
    requires i < j < |ts|
    ensures w(ts[i]) + w(ts[j]) <= Total(w, ts)
  {
    if i == 0 {
      AtLeastOne(w, ts[1..], j - 1);
    } else {
      AtLeastTwo(w, ts[1..], i - 1, j - 1);
    }
  }

  /** A positive total is due to somebody. */
  lemma {:induction false} Culprit<T>(w: T -> nat, ts: seq<T>) returns (i: nat)
    requires Total(w, ts) > 0
    ensures i < |ts| && w(ts[i]) > 0
  {
    if w(ts[0]) > 0 {
      i := 0;
    } else {
      i := Culprit(w, ts[1..]);
      i := i + 1;
    }
  }

  lemma {:induction false} Pointwise<T>(v: T -> nat, w: T -> nat, ts: seq<T>, us: seq<T>)
    requires |ts| == |us|
    requires forall i :: 0 <= i < |ts| ==> v(ts[i]) == w(us[i])
    ensures Total(v, ts) == Total(w, us)
  {
    if ts != [] {
      Pointwise(v, w, ts[1..], us[1..]);
    }
  }

  lemma {:induction false} Uniform<T>(w: T -> nat, ts: seq<T>, k: nat)
    requires forall i :: 0 <= i < |ts| ==> w(ts[i]) == k
    ensures Total(w, ts) == |ts| * k
  {
    if ts != [] {
      Uniform(w, ts[1..], k);
      calc {
        Total(w, ts);
        k + (|ts| - 1) * k;
        |ts| * k;
      }
    }
  }

  lemma {:induction false} Capped<T>(w: T -> nat, ts: seq<T>, k: nat)
    requires forall i :: 0 <= i < |ts| ==> w(ts[i]) <= k
    ensures Total(w, ts) <= |ts| * k
  {
    if ts != [] {
      Capped(w, ts[1..], k);
      calc {
        Total(w, ts);
      <=
        k + (|ts| - 1) * k;
        |ts| * k;
      }
    }
  }

  lemma {:induction false} Append<T>(w: T -> nat, ts: seq<T>, us: seq<T>)
    ensures Total(w, ts + us) == Total(w, ts) + Total(w, us)
  {
    if ts == [] {
      assert ts + us == us;
    } else {
      assert (ts + us)[1..] == ts[1..] + us;
      Append(w, ts[1..], us);
    }
  }
}
