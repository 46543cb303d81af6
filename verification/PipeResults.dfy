/** What callers are told, against what the queue does: the bytes handed to readers are the bytes removed,
    the counts told to writers are the bytes taken, and every notification is of the kind its cause calls
    for. */
module PipeResults {
  import opened Bytes
  import opened Pipe
  import opened PipeInvariant
  import opened PipeTheorems

  // ----- one step -----

  /** The step of thread `t` that brings its call to a result. */
  predicate Answers(s: State, s': State, t: nat) {
    && t < |s.threads| && t < |s'.threads|
    && s.threads[t].job.Busy? && !s.threads[t].job.pc.Return?
    && s'.threads[t].job.Busy? && s'.threads[t].job.call == s.threads[t].job.call && s'.threads[t].job.pc.Return?
  }

  /** The bytes handed to a reader by this step. */
  function Handed(s: State, s': State, t: nat): seq<byte> {
    if Answers(s, s', t) && s'.threads[t].job.pc.r.Got? then s'.threads[t].job.pc.r.bytes else []
  }

  /** The slice a writer is told has been taken, and how much of it. */
  function Taken(s: State, s': State, t: nat): seq<Chunk> {
    if Answers(s, s', t) && s'.threads[t].job.pc.r.Wrote? && s'.threads[t].job.call.Write? &&
      s'.threads[t].job.pc.r.n > 0
    then [Chunk(s'.threads[t].job.call.data, s'.threads[t].job.pc.r.n)] else []
  }

  /** As much as is queued, or as was asked for, of the front of the queue. */
  predicate LongestPrefix(bs: seq<byte>, queue: seq<byte>, len: nat) {
    bs <= queue && |bs| <= len && (|bs| == len || bs == queue)
  }

  /** A result of a read or a write, against the queue as it was. */
  predicate Truthful(s: State, call: Call, r: Result) {
    match r
    case Got(bytes) => call.Read? && LongestPrefix(bytes, s.buf, call.len)
    case Wrote(n) =>
      && call.Write? && n <= |call.data| && |s.buf| + n <= s.capacity
      && (n == |call.data| || (n > 0 && |s.buf| + n == s.capacity))
    case _ => true
  }

  /** The queue's histories grow by just what the step's answer says. */
  ghost predicate Told(s: State, s': State, t: nat) {
    && s'.popped == s.popped + Handed(s, s', t)
    && s'.chunks == s.chunks + Taken(s, s', t)
    && (Answers(s, s', t) ==> Truthful(s, s.threads[t].job.call, s'.threads[t].job.pc.r))
  }

  lemma Unmoved(s: State, s': State, t: nat)
    requires s'.popped == s.popped && s'.chunks == s.chunks && Handed(s, s', t) == [] && Taken(s, s', t) == []
    requires Answers(s, s', t) ==> Truthful(s, s.threads[t].job.call, s'.threads[t].job.pc.r)
    ensures Told(s, s', t)
  {
    assert s.popped + [] == s.popped && s.chunks + [] == s.chunks;
  }

  lemma ChoreTold(s: State, t: nat)
    requires t < |s.threads| && s.threads[t].chore != Quiet
    ensures Told(s, ChoreStep(s, t), t)
  {
    Unmoved(s, ChoreStep(s, t), t);
  }

  lemma IdleTold(s: State, t: nat, c: Choice)
    requires t < |s.threads| && s.threads[t].job.Idle?
    ensures Told(s, IdleStep(s, t, c), t)
  {
    Unmoved(s, IdleStep(s, t, c), t);
  }

  lemma WaitTold(s: State, t: nat, c: Choice)
    requires t < |s.threads| && s.threads[t].job.Busy?
    requires s.threads[t].job.pc in {Again, Sleep} || s.threads[t].job.pc.Return?
    ensures Told(s, WaitStep(s, t, c), t)
  {
    Unmoved(s, WaitStep(s, t, c), t);
  }

  lemma WriteTold(s: State, t: nat)
    requires t < |s.threads| && s.threads[t].job.Busy? && s.threads[t].job.call.Write?
    requires |s.buf| <= s.capacity && !s.threads[t].job.pc.Return?
    ensures Told(s, WriteStep(s, t), t)
  {
    if Taken(s, WriteStep(s, t), t) == [] {
      Unmoved(s, WriteStep(s, t), t);
    } else {
      assert s.popped + [] == s.popped;
    }
  }

  lemma ReadTold(s: State, t: nat)
    requires t < |s.threads| && s.threads[t].job.Busy? && s.threads[t].job.call.Read? && !s.threads[t].job.pc.Return?
    ensures Told(s, ReadStep(s, t), t)
  {
    assert s.chunks + [] == s.chunks && s.popped + [] == s.popped;
    assert s.buf[..|s.buf|] == s.buf && s.buf[..0] == [] && s.buf[0..] == s.buf;
  }

  /** In every step: what leaves the queue is handed to the reader whose call it completes, what enters is
      what the writer is told was taken, and both are as much as could be moved. */
  lemma StepTold(s: State, t: nat, c: Choice)
    requires Inv(s) && Enabled(s, t, c)
    ensures Told(s, Next(s, t, c), t)
  {
    var th := s.threads[t];
    if th.chore != Quiet {
      ChoreTold(s, t);
    } else if th.job.Idle? {
      IdleTold(s, t, c);
    } else if th.job.pc in {Again, Sleep} || th.job.pc.Return? {
      WaitTold(s, t, c);
    } else if th.job.call.Write? {
      WriteTold(s, t);
    } else {
      ReadTold(s, t);
    }
  }

  /** A result, once there, is what the call returns: it stays until the call is over. */
  lemma ResultStays(s: State, t: nat, c: Choice, i: nat)
    requires Inv(s) && Enabled(s, t, c) && i < |s.threads| && s.threads[i].job.Busy? && s.threads[i].job.pc.Return?
    ensures var s' := Next(s, t, c);
      i < |s'.threads| && (s'.threads[i].job.Idle? || SamePlace(s.threads[i], s'.threads[i]))
  {
    OthersStay(s, t, c);
  }

  // ----- whole runs -----

  /** Everything handed to readers over a run, in order. */
  ghost function AllHanded(s: State, ms: seq<Move>): seq<byte>
    decreases |ms|
  {
    if ms == [] || !Enabled(s, ms[0].t, ms[0].c) then []
    else Handed(s, Next(s, ms[0].t, ms[0].c), ms[0].t) + AllHanded(Next(s, ms[0].t, ms[0].c), ms[1..])
  }

  /** Everything writers were told was taken, in order. */
  ghost function AllTaken(s: State, ms: seq<Move>): seq<Chunk>
    decreases |ms|
  {
    if ms == [] || !Enabled(s, ms[0].t, ms[0].c) then []
    else Taken(s, Next(s, ms[0].t, ms[0].c), ms[0].t) + AllTaken(Next(s, ms[0].t, ms[0].c), ms[1..])
  }

  lemma {:induction false} RunTold(s: State, ms: seq<Move>, s': State)
    requires Inv(s) && Runs(s, ms, s')
    ensures s'.popped == s.popped + AllHanded(s, ms) && s'.chunks == s.chunks + AllTaken(s, ms)
    decreases |ms|
  {
    if ms == [] {
      assert s.popped + [] == s.popped && s.chunks + [] == s.chunks;
    } else {
      var mid := Next(s, ms[0].t, ms[0].c);
      StepTold(s, ms[0].t, ms[0].c);
      InvStep(s, ms[0].t, ms[0].c);
      RunTold(mid, ms[1..], s');
      Regroup(s.popped, Handed(s, mid, ms[0].t), AllHanded(mid, ms[1..]));
      Regroup(s.chunks, Taken(s, mid, ms[0].t), AllTaken(mid, ms[1..]));
    }
  }

  lemma Regroup<T>(a: seq<T>, b: seq<T>, c: seq<T>)
    ensures (a + b) + c == a + (b + c)
  {
  }

  /** End to end, over every run from a new pipe: the bytes handed to readers, followed by the bytes still
      queued, are the bytes that writers were told were taken, in order. */
  lemma EndToEnd(capacity: nat, guarantee: nat, threads: nat, ms: seq<Move>, s: State)
    requires Runs(Init(capacity, guarantee, threads), ms, s)
    ensures var s0 := Init(capacity, guarantee, threads); AllHanded(s0, ms) + s.buf == Flat(AllTaken(s0, ms))
  {
    var s0 := Init(capacity, guarantee, threads);
    StreamConservation(capacity, guarantee, threads, ms, s);
    InvInit(capacity, guarantee, threads);
    RunTold(s0, ms, s);
    Nothing(AllHanded(s0, ms));
    Nothing(AllTaken(s0, ms));
  }

  lemma Nothing<T>(a: seq<T>)
    ensures [] + a == a
  {
  }

  // ----- notifications and handles -----

  /** A new notification says what has just happened: a push is told to the reader's end as IN, a pop to the
      writer's as OUT, the end of all writers as HUP and that of all readers as ERR. */
  ghost predicate Noticed(s: State, s': State, t: nat)
    requires t < |s'.threads|
  {
    var chore := s'.threads[t].chore;
    && (s'.chunks != s.chunks ==> chore == Tell(R, IN))
    && (s'.popped != s.popped && s.w.strong > 0 ==> chore == Tell(W, OUT))
    && (s'.w.shut && !s.w.shut ==> chore == Tell(R, HUP))
    && (s'.r.shut && !s.r.shut ==> chore == Tell(W, ERR))
  }

  lemma ChoreNoticed(s: State, t: nat)
    requires t < |s.threads|
    ensures t < |ChoreStep(s, t).threads| && Noticed(s, ChoreStep(s, t), t)
  {
  }

  lemma WriteNoticed(s: State, t: nat)
    requires t < |s.threads| && s.threads[t].job.Busy? && s.threads[t].job.call.Write?
    ensures t < |WriteStep(s, t).threads| && Noticed(s, WriteStep(s, t), t)
  {
  }

  lemma ReadNoticed(s: State, t: nat)
    requires t < |s.threads| && s.threads[t].job.Busy? && s.threads[t].job.call.Read?
    requires s.threads[t].job.pc == PopAgain ==> s.w.strong == 0
    ensures t < |ReadStep(s, t).threads| && Noticed(s, ReadStep(s, t), t)
  {
  }

  lemma NoticeOf(s: State, t: nat, c: Choice)
    requires Inv(s) && Enabled(s, t, c)
    ensures t < |Next(s, t, c).threads| && Noticed(s, Next(s, t, c), t)
  {
    var th := s.threads[t];
    assert Knows(s, th);
    if th.chore != Quiet {
      ChoreNoticed(s, t);
    } else if th.job.Busy? && !(th.job.pc in {Again, Sleep} || th.job.pc.Return?) {
      if th.job.call.Write? { WriteNoticed(s, t); } else { ReadNoticed(s, t); }
    }
  }

  /** Only opening and closing change the number of handles of an end, by one each. */
  lemma HandlesCounted(s: State, t: nat, c: Choice, e: End)
    requires Inv(s) && Enabled(s, t, c)
    ensures Next(s, t, c).At(e).handles ==
      s.At(e).handles + (if c == Duplicate(e) then 1 else 0) - (if c == Close(e) then 1 else 0)
  {
  }
}
