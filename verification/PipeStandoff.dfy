/** The one way a reader and a writer can wait for each other: a slice longer than the pipe that the
    guarantee says must go in whole. */
module PipeStandoff {
  import opened Bytes
  import opened Pipe
  import opened PipeInvariant
  import opened PipeTheorems

  /** A slice that is guaranteed to go in whole, and never can. */
  predicate Oversized(s: State, call: Call) { call.Write? && s.capacity < |call.data| <= s.guarantee }

  predicate Unwritten(s: State, th: Thread) {
    th.job.Busy? && Oversized(s, th.job.call) ==> th.job.pc != Push && !(th.job.pc.Return? && th.job.pc.r.Wrote?)
  }

  lemma UnwrittenStep(s: State, t: nat, c: Choice, i: nat)
    requires Inv(s) && Enabled(s, t, c) && i < |s.threads| && Unwritten(s, s.threads[i])
    ensures i < |Next(s, t, c).threads| && Unwritten(Next(s, t, c), Next(s, t, c).threads[i])
  {
    OthersStay(s, t, c);
    if i == t { OwnUnwritten(s, t, c); }
  }

  lemma OwnUnwritten(s: State, t: nat, c: Choice)
    requires |s.buf| <= s.capacity && Enabled(s, t, c) && Unwritten(s, s.threads[t])
    ensures t < |Next(s, t, c).threads| && Unwritten(Next(s, t, c), Next(s, t, c).threads[t])
  {
    var th := s.threads[t];
    if th.chore != Quiet {
      ChoreStays(s, t);
    } else if th.job.Busy? && !(th.job.pc in {Again, Sleep} || th.job.pc.Return?) {
      if th.job.call.Write? { WriteUnwritten(s, t); } else { ReadStays(s, t); }
    }
  }

  lemma ChoreStays(s: State, t: nat)
    requires t < |s.threads|
    ensures var s' := ChoreStep(s, t);
      && t < |s'.threads| && SamePlace(s.threads[t], s'.threads[t])
      && s'.capacity == s.capacity && s'.guarantee == s.guarantee
  {
  }

  lemma ReadStays(s: State, t: nat)
    requires t < |s.threads| && s.threads[t].job.Busy? && s.threads[t].job.call.Read?
    ensures var s' := ReadStep(s, t);
      t < |s'.threads| && s'.threads[t].job.Busy? && s'.threads[t].job.call == s.threads[t].job.call
  {
  }

  lemma WriteUnwritten(s: State, t: nat)
    requires t < |s.threads| && s.threads[t].job.Busy? && s.threads[t].job.call.Write?
    requires |s.buf| <= s.capacity && Unwritten(s, s.threads[t])
    ensures t < |WriteStep(s, t).threads| && Unwritten(WriteStep(s, t), WriteStep(s, t).threads[t])
  {
  }

  lemma {:induction false} UnwrittenRun(s: State, ms: seq<Move>, s': State, i: nat)
    requires Inv(s) && Runs(s, ms, s') && i < |s.threads| && Unwritten(s, s.threads[i])
    ensures i < |s'.threads| && Unwritten(s', s'.threads[i])
    decreases |ms|
  {
    if ms != [] {
      InvStep(s, ms[0].t, ms[0].c);
      UnwrittenStep(s, ms[0].t, ms[0].c, i);
      UnwrittenRun(Next(s, ms[0].t, ms[0].c), ms[1..], s', i);
    }
  }

  /** In no run does such a write get to its push or return a count. */
  lemma NeverWritten(capacity: nat, guarantee: nat, threads: nat, ms: seq<Move>, s: State, i: nat)
    requires Runs(Init(capacity, guarantee, threads), ms, s) && i < threads
    ensures i < |s.threads| && Unwritten(s, s.threads[i])
  {
    InvInit(capacity, guarantee, threads);
    UnwrittenRun(Init(capacity, guarantee, threads), ms, s, i);
  }

  // ----- a reachable standoff -----

  predicate Reading(th: Thread, len: nat) {
    th.job.Busy? && th.job.call == Read(len, false) && !th.job.pc.Return? && th.job.pc != PopAgain
  }

  predicate Writing(th: Thread, data: seq<byte>) {
    th.job.Busy? && th.job.call == Write(data, false) && !th.job.pc.Return? && th.job.pc != Push
  }

  /** One reader and one writer, nothing ever pushed, and the slice too long. */
  predicate Standoff(s: State, len: nat, data: seq<byte>) {
    && s.capacity < |data| <= s.guarantee && len > 0 && s.buf == [] && s.w.handles > 0 && s.r.handles > 0
    && |s.threads| == 2 && Reading(s.threads[0], len) && Writing(s.threads[1], data)
  }

  lemma StandoffStep(s: State, t: nat, c: Choice, len: nat, data: seq<byte>)
    requires Inv(s) && Standoff(s, len, data) && Enabled(s, t, c) && c != Interrupt
    ensures Standoff(Next(s, t, c), len, data)
  {
    OthersStay(s, t, c);
    assert s.At(W).strong > 0 && s.At(R).strong > 0;
    assert Knows(s, s.threads[t]) && Shape(s.threads[t]);
    if t == 0 { ReaderWaits(s, c, len); } else { WriterWaits(s, c, data); }
  }

  /** Both ends are open and nothing is queued. */
  predicate Open(s: State) {
    s.buf == [] && s.w.handles > 0 && s.r.handles > 0 && s.w.strong > 0 && s.r.strong > 0 && !s.w.shut && !s.r.shut
  }

  lemma ReaderWaits(s: State, c: Choice, len: nat)
    requires Enabled(s, 0, c) && c != Interrupt && len > 0 && Reading(s.threads[0], len)
    requires Open(s) && Shape(s.threads[0])
    ensures var s' := Next(s, 0, c);
      s'.buf == [] && s'.w.handles > 0 && s'.r.handles > 0 && |s'.threads| == |s.threads| && Reading(s'.threads[0], len)
  {
  }

  lemma WriterWaits(s: State, c: Choice, data: seq<byte>)
    requires Enabled(s, 1, c) && c != Interrupt && s.capacity < |data| <= s.guarantee
    requires Writing(s.threads[1], data) && Open(s) && Shape(s.threads[1])
    ensures var s' := Next(s, 1, c);
      && s'.buf == [] && s'.w.handles > 0 && s'.r.handles > 0
      && |s'.threads| == |s.threads| && Writing(s'.threads[1], data)
  {
  }

  /** It is for good: whatever the two do and whatever wakes them, short of an interruption, neither ever
      returns. */
  lemma {:induction false} StandoffLasts(s: State, ms: seq<Move>, s': State, len: nat, data: seq<byte>)
    requires Inv(s) && Standoff(s, len, data) && Runs(s, ms, s') && forall k :: 0 <= k < |ms| ==> ms[k].c != Interrupt
    ensures Standoff(s', len, data)
    decreases |ms|
  {
    if ms != [] {
      InvStep(s, ms[0].t, ms[0].c);
      StandoffStep(s, ms[0].t, ms[0].c, len, data);
      StandoffLasts(Next(s, ms[0].t, ms[0].c), ms[1..], s', len, data);
    }
  }

  lemma BothStart(capacity: nat, guarantee: nat, len: nat, data: seq<byte>) returns (ms: seq<Move>, s: State)
    requires capacity < |data| <= guarantee && len > 0
    ensures Runs(Init(capacity, guarantee, 2), ms, s) && Standoff(s, len, data)
  {
    var s0 := Init(capacity, guarantee, 2);
    var s1 := Next(s0, 0, Start(Read(len, false)));
    s := Next(s1, 1, Start(Write(data, false)));
    OneMove(s0, 0, Start(Read(len, false)));
    OneMove(s1, 1, Start(Write(data, false)));
    RunsThen(s0, [Move(0, Start(Read(len, false)))], s1, [Move(1, Start(Write(data, false)))], s);
    ms := [Move(0, Start(Read(len, false)))] + [Move(1, Start(Write(data, false)))];
  }

  /** A reader and a writer of any such slice can come to sleep with nobody left to move. */
  lemma StandoffReachable(capacity: nat, guarantee: nat, len: nat, data: seq<byte>) returns (ms: seq<Move>, s: State)
    requires capacity < |data| <= guarantee && len > 0
    ensures Runs(Init(capacity, guarantee, 2), ms, s) && Inv(s) && Quiescent(s) && Standoff(s, len, data)
    ensures s.threads[0].job.pc == Sleep && s.threads[1].job.pc == Sleep
  {
    var m1, s1 := BothStart(capacity, guarantee, len, data);
    InvInit(capacity, guarantee, 2);
    RunExtends(Init(capacity, guarantee, 2), m1, s1);
    var m2;
    m2, s := CanSettle(s1);
    StandoffLasts(s1, m2, s, len, data);
    RunExtends(s1, m2, s);
    QuiescentSleepers(s, 0);
    QuiescentSleepers(s, 1);
    RunsThen(Init(capacity, guarantee, 2), m1, s1, m2, s);
    ms := m1 + m2;
  }

  /** A state at rest in which thread `i` reads and thread `j` writes `data`. */
  ghost predicate Asleep(s: State, i: nat, j: nat, data: seq<byte>) {
    && Quiescent(s) && i < |s.threads| && j < |s.threads|
    && s.threads[i].job.Busy? && s.threads[i].job.call.Read?
    && s.threads[j].job.Busy? && s.threads[j].job.call.Write? && s.threads[j].job.call.data == data
  }

  ghost predicate CanSleepTogether(capacity: nat, guarantee: nat, data: seq<byte>) {
    exists threads: nat, ms, s, i: nat, j: nat ::
      Runs(Init(capacity, guarantee, threads), ms, s) && Asleep(s, i, j, data)
  }

  /** A reader and a writer of `data` can sleep on each other in some run exactly if the slice is longer than
      the capacity and within the guarantee; so with a guarantee up to the capacity, never. */
  lemma MutualSleepIff(capacity: nat, guarantee: nat, data: seq<byte>)
    requires capacity > 0
    ensures CanSleepTogether(capacity, guarantee, data) <==> capacity < |data| <= guarantee
  {
    if capacity < |data| <= guarantee {
      var ms, s := StandoffReachable(capacity, guarantee, 1, data);
      assert Asleep(s, 0, 1, data);
    }
    if CanSleepTogether(capacity, guarantee, data) {
      var threads: nat, ms, s, i: nat, j: nat :|
        Runs(Init(capacity, guarantee, threads), ms, s) && Asleep(s, i, j, data);
      InvInit(capacity, guarantee, threads);
      RunExtends(Init(capacity, guarantee, threads), ms, s);
      NoMutualSleep(s, i, j);
    }
  }
}
