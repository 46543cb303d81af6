/** What the pipe promises over whole runs. */
module PipeTheorems {
  import opened Bytes
  import opened Tally
  import opened Pipe
  import opened PipeInvariant

  datatype Move = Move(t: nat, c: Choice)

  /** `s'` is reached from `s` by the given interleaving. */
  ghost predicate Runs(s: State, ms: seq<Move>, s': State)
    decreases |ms|
  {
    if ms == [] then s == s'
    else Enabled(s, ms[0].t, ms[0].c) && Runs(Next(s, ms[0].t, ms[0].c), ms[1..], s')
  }

  lemma {:induction false} RunsThen(s: State, ms: seq<Move>, mid: State, ms': seq<Move>, s': State)
    requires Runs(s, ms, mid) && Runs(mid, ms', s')
    ensures Runs(s, ms + ms', s')
    decreases |ms|
  {
    if ms == [] {
      assert ms + ms' == ms';
    } else {
      assert (ms + ms')[1..] == ms[1..] + ms';
      RunsThen(Next(s, ms[0].t, ms[0].c), ms[1..], mid, ms', s');
    }
  }

  lemma OneMove(s: State, t: nat, c: Choice)
    requires Enabled(s, t, c)
    ensures Runs(s, [Move(t, c)], Next(s, t, c))
  {
    assert [Move(t, c)][1..] == [];
    assert Runs(Next(s, t, c), [], Next(s, t, c));
  }

  ghost predicate Extends(s: State, s': State) {
    && s'.capacity == s.capacity && s'.guarantee == s.guarantee && |s'.threads| == |s.threads|
    && s.popped <= s'.popped && Flat(s.chunks) <= Flat(s'.chunks)
    && (s.r.strong == 0 ==> s'.r.strong == 0)
    && (s.w.strong == 0 ==> s'.w.strong == 0 && s'.chunks == s.chunks)
  }

  lemma StepExtends(s: State, t: nat, c: Choice)
    requires Inv(s) && Enabled(s, t, c)
    ensures Inv(Next(s, t, c)) && Extends(s, Next(s, t, c))
  {
    var s' := Next(s, t, c);
    InvStep(s, t, c);
    assert EndMoves(s, s', R, s.threads[t], s'.threads[t]);
    assert EndMoves(s, s', W, s.threads[t], s'.threads[t]);
    if Pushed(s, s', t) {
      assert Held(W, s.threads[t]) > 0;
      Alive(s, t, W);
    }
  }

  lemma PrefixTransitive(a: seq<byte>, b: seq<byte>, c: seq<byte>)
    requires a <= b <= c
    ensures a <= c
  {
  }

  /** Histories only grow, dead ends stay dead, and a pipe without writers takes no more bytes. */
  lemma {:induction false} RunExtends(s: State, ms: seq<Move>, s': State)
    requires Inv(s) && Runs(s, ms, s')
    ensures Inv(s') && Extends(s, s')
    decreases |ms|
  {
    if ms != [] {
      var mid := Next(s, ms[0].t, ms[0].c);
      StepExtends(s, ms[0].t, ms[0].c);
      RunExtends(mid, ms[1..], s');
      PrefixTransitive(s.popped, mid.popped, s'.popped);
      PrefixTransitive(Flat(s.chunks), Flat(mid.chunks), Flat(s'.chunks));
    }
  }

  /** Conservation and atomic slices, in every reachable state: the bytes popped followed by the
      bytes queued are the slices pushed, one after the other in order; the queue never exceeds its
      capacity; and a slice no longer than the guarantee went in whole. */
  lemma StreamConservation(capacity: nat, guarantee: nat, threads: nat, ms: seq<Move>, s: State)
    requires Runs(Init(capacity, guarantee, threads), ms, s)
    ensures Inv(s) && s.popped + s.buf == Flat(s.chunks) && |s.buf| <= capacity
    ensures forall k :: 0 <= k < |s.chunks| && |s.chunks[k].data| <= guarantee ==> s.chunks[k].n == |s.chunks[k].data|
  {
    InvInit(capacity, guarantee, threads);
    RunExtends(Init(capacity, guarantee, threads), ms, s);
  }

  /** A read with a non-empty buffer that comes back with nothing has seen the true end: everything
      ever pushed has been popped, and nothing is pushed or popped ever after. */
  lemma EofIsFinal(s: State, i: nat, ms: seq<Move>, s': State)
    requires Inv(s) && Runs(s, ms, s') && i < |s.threads|
    requires s.threads[i].job.Busy? && s.threads[i].job.call.Read? && s.threads[i].job.call.len > 0
    requires s.threads[i].job.pc == Return(Got([]))
    ensures s.popped == Flat(s.chunks)
    ensures s'.chunks == s.chunks && s'.popped == s.popped && s'.buf == []
  {
    assert Knows(s, s.threads[i]);
    RunExtends(s, ms, s');
    assert |s'.popped| + |s'.buf| == |s.popped|;
  }

  /** is_peer_shutdown, asked of end `e` at one instant. */
  predicate PeerGone(s: State, e: End) {
    s.At(Peer(e)).strong == 0 || s.At(Peer(e)).shut
  }

  /** peer_shutdown is stable, and at_eof is too even though its two tests are made at different
      instants: once the peer was found gone and the queue later found empty, every later state has
      no peer and an empty queue, and nothing was read in between. */
  lemma EofIsStable(s: State, ms: seq<Move>, mid: State, ms': seq<Move>, s': State)
    requires Inv(s) && Runs(s, ms, mid) && Runs(mid, ms', s') && PeerGone(s, R)
    ensures PeerGone(mid, R) && PeerGone(s', R)
    ensures mid.buf == [] ==> s'.buf == [] && s'.popped == mid.popped
  {
    RunExtends(s, ms, mid);
    RunExtends(mid, ms', s');
    if mid.buf == [] {
      assert |s'.popped| + |s'.buf| == |mid.popped|;
    }
  }

  /** A read that has found nothing but the way to an end of file: it never waits. */
  predicate AtEnd(th: Thread) {
    th.job.Busy? && th.job.call.Read? ==> th.job.pc in {Begin, Pop, Upgrade, PopAgain} || th.job.pc == Return(Got([]))
  }

  /** The same call at the same place, whatever its observer has heard. */
  predicate SamePlace(th: Thread, th': Thread) {
    (th.job.Busy? <==> th'.job.Busy?) && (th.job.Busy? ==> th'.job.call == th.job.call && th'.job.pc == th.job.pc)
  }

  lemma OthersStay(s: State, t: nat, c: Choice)
    requires Inv(s) && Enabled(s, t, c)
    ensures var s' := Next(s, t, c);
      && |s'.threads| == |s.threads| && s'.capacity == s.capacity && s'.guarantee == s.guarantee
      && forall i :: 0 <= i < |s.threads| && i != t ==> SamePlace(s.threads[i], s'.threads[i])
  {
    StepEffect(s, t, c);
  }

  lemma AtEndStep(s: State, t: nat, c: Choice, i: nat)
    requires Inv(s) && Enabled(s, t, c) && i < |s.threads| && s.w.strong == 0 && s.buf == [] && AtEnd(s.threads[i])
    ensures i < |Next(s, t, c).threads| && AtEnd(Next(s, t, c).threads[i])
  {
    OthersStay(s, t, c);
    if i == t && s.threads[t].job.Busy? {
      Alive(s, t, EndOf(s.threads[t].job.call));
    }
  }

  /** After at_eof every read returns nothing, and without waiting: once the writers are gone and the queue
      is empty, a thread that is not reading yet, in whatever it does afterwards, only ever stands in a
      read on its way to an end of file. */
  lemma {:induction false} EveryReadEnds(s: State, ms: seq<Move>, s': State, i: nat)
    requires Inv(s) && Runs(s, ms, s') && i < |s.threads| && PeerGone(s, R) && s.buf == [] && AtEnd(s.threads[i])
    ensures i < |s'.threads| && AtEnd(s'.threads[i])
    decreases |ms|
  {
    if ms != [] {
      var mid := Next(s, ms[0].t, ms[0].c);
      OneMove(s, ms[0].t, ms[0].c);
      EofIsStable(s, [], s, [ms[0]], mid);
      StepExtends(s, ms[0].t, ms[0].c);
      AtEndStep(s, ms[0].t, ms[0].c, i);
      EveryReadEnds(mid, ms[1..], s', i);
    }
  }

  /** Handle lifetime: an end with its flag set is held by nobody, so no caller is ever told that its
      own end is shut down, a read never reports a shut-down peer, and neither an end of file nor a
      broken pipe is reported while any handle of the other end is left, detached ones included. */
  lemma HandleLifetime(s: State, i: nat)
    requires Inv(s) && i < |s.threads|
    ensures forall e :: s.At(e).shut ==> s.At(e).handles == 0 && Held(e, s.threads[i]) == 0
    ensures s.threads[i].job.Busy? && s.threads[i].job.pc.Return? ==>
      var call, r := s.threads[i].job.call, s.threads[i].job.pc.r;
      && r != ThisEndShutdown
      && (call.Read? ==> r != PeerShutdown)
      && (call.Read? && call.len > 0 && r == Got([]) ==> s.w.handles == 0)
      && (r == PeerShutdown ==> s.r.handles == 0)
  {
    assert Shape(s.threads[i]) && Knows(s, s.threads[i]);
    assert s.At(W).handles <= s.At(W).strong && s.At(R).handles <= s.At(R).strong;
    forall e | s.At(e).shut ensures s.At(e).handles == 0 && Held(e, s.threads[i]) == 0 {
      AtLeastOne(HeldAt(e), s.threads, i);
    }
  }

  // ----- no lost notification -----

  /** Nobody can move by themselves: every thread is idle or asleep. */
  ghost predicate Quiescent(s: State) {
    forall t :: 0 <= t < |s.threads| ==> !Enabled(s, t, Go)
  }

  /** The retry of this call would not have to wait. */
  predicate CouldProceed(s: State, call: Call) {
    match call
    case Read(_, _) => s.buf != [] || s.w.strong == 0
    case Write(data, _) => s.r.strong == 0 || Fits(s, data)
  }

  /** No sleeper is stranded: a sleeping call that could proceed has been rung already, or some
      thread is on its way to ring it and can take its next step. */
  lemma NoLostNotification(s: State, i: nat) returns (k: nat)
    requires Inv(s) && i < |s.threads| && s.threads[i].job.Busy? && s.threads[i].job.pc == Sleep
    requires CouldProceed(s, s.threads[i].job.call)
    ensures s.threads[i].job.obs == Ready ||
            (k < |s.threads| && Owes(EndOf(s.threads[i].job.call), s.threads[k]) == 1 && Enabled(s, k, Go))
  {
    k := i;
    var e := EndOf(s.threads[i].job.call);
    assert Shape(s.threads[i]) && Awaits(s, s.threads[i]);
    if s.threads[i].job.obs != Ready {
      assert Needs(s, e, s.threads[i]);
      k := Culprit(OwedAt(e), s.threads);
    }
  }

  /** The thread in the producer mutex is never held up. */
  lemma OwnerMoves(s: State)
    requires Inv(s)
    ensures s.producer.Some? ==> Enabled(s, s.producer.value, Go)
  {
    if s.producer.Some? {
      assert InCritical(s.threads[s.producer.value]) && Shape(s.threads[s.producer.value]);
    }
  }

  /** So when nothing moves any more, every call still in progress is asleep for a reason. */
  lemma QuiescentSleepers(s: State, i: nat)
    requires Inv(s) && Quiescent(s) && i < |s.threads|
    ensures s.threads[i].chore == Quiet && (s.threads[i].job.Busy? ==>
      s.threads[i].job.pc == Sleep && !CouldProceed(s, s.threads[i].job.call))
  {
    var th := s.threads[i];
    assert !Enabled(s, i, Go);
    OwnerMoves(s);
    if th.job.Busy? && th.job.pc == Sleep && CouldProceed(s, th.job.call) {
      var k := NoLostNotification(s, i);
    }
  }

  /** Readers and writers never wait for each other: if both sleep in a quiescent state, the writer
      offers a slice the pipe can never take whole although the guarantee covers it. With a guarantee
      no larger than the capacity this cannot happen. */
  lemma NoMutualSleep(s: State, i: nat, j: nat)
    requires Inv(s) && Quiescent(s) && s.capacity > 0 && i < |s.threads| && j < |s.threads|
    requires s.threads[i].job.Busy? && s.threads[i].job.call.Read?
    requires s.threads[j].job.Busy? && s.threads[j].job.call.Write?
    ensures s.capacity < |s.threads[j].job.call.data| <= s.guarantee
  {
    QuiescentSleepers(s, i);
    QuiescentSleepers(s, j);
  }

  /** A slice fits into the pipe at some fill level unless it is longer than the capacity and within
      the guarantee. */
  lemma WhenWritesFit(s: State, data: seq<byte>)
    requires s.capacity > 0 && |s.buf| <= s.capacity
    ensures Fits(s.(buf := []), data) <==> !(s.capacity < |data| <= s.guarantee)
    ensures s.capacity < |data| <= s.guarantee ==> !Fits(s, data)
  {
  }

  // ----- everything settles -----

  function Wakes(n: nat): nat { 10 * n }

  function ChorePurse(n: nat, chore: Chore): nat {
    match chore
    case Quiet => 0
    case Release(_) => 1
    case Ring(_, _) => Wakes(n) + 2
    case Tell(_, _) => Wakes(n) + 3
    case Shut(_) => Wakes(n) + 4
  }

  function PcPurse(pc: Pc): nat {
    match pc
    case Begin => 9
    case Pop => 8
    case Upgrade => 7
    case Flag => 6
    case Lock => 4
    case Vacant => 3
    case Push => 2
    case PopAgain => 2
    case Again => 1
    case Sleep => 0
    case Return(_) => 2
  }

  function JobPurse(n: nat, job: Job): nat {
    if job.Idle? then 0
    else if job.pc.Return? then 2
    else Wakes(n) + 6 + PcPurse(job.pc) + (if job.obs == Armed then 0 else 10)
  }

  function Purse(n: nat, th: Thread): nat { JobPurse(n, th.job) + ChorePurse(n, th.chore) }

  function Purses(n: nat): Thread -> nat { (th: Thread) => Purse(n, th) }

  function EndPurse(n: nat, p: Endpoint): nat { if p.strong == 0 then 0 else Wakes(n) + 5 }

  /** What the threads and the two ends may still spend on their own. */
  function Fund(s: State): nat {
    Total(Purses(|s.threads|), s.threads) + EndPurse(|s.threads|, s.w) + EndPurse(|s.threads|, s.r)
  }

  lemma {:induction false} HearCosts(n: nat, e: End, ev: Event, ts: seq<Thread>)
    ensures Total(Purses(n), HearAll(e, ev, ts)) <= Total(Purses(n), ts) + Wakes(|ts|)
  {
    if ts != [] {
      HearCosts(n, e, ev, ts[1..]);
      assert HearAll(e, ev, ts)[1..] == HearAll(e, ev, ts[1..]);
    }
  }

  /** A step that rings nobody is paid for by the thread that takes it and by a dying end. */
  ghost predicate Pays(n: nat, s: State, s': State, t: nat) {
    && t < |s.threads| && s'.threads == s.threads[t := if t < |s'.threads| then s'.threads[t] else s.threads[t]]
    && Purse(n, s'.threads[t]) + EndPurse(n, s'.w) + EndPurse(n, s'.r)
       < Purse(n, s.threads[t]) + EndPurse(n, s.w) + EndPurse(n, s.r)
  }

  lemma ChorePays(n: nat, s: State, t: nat)
    requires Sound(s, t) && s.threads[t].chore != Quiet && !s.threads[t].chore.Ring?
    ensures Pays(n, s, ChoreStep(s, t), t)
  {
  }

  lemma WaitPays(n: nat, s: State, t: nat)
    requires Sound(s, t) && Enabled(s, t, Go) && s.threads[t].chore == Quiet && s.threads[t].job.Busy?
    requires s.threads[t].job.pc in {Again, Sleep} || s.threads[t].job.pc.Return?
    ensures Pays(n, s, WaitStep(s, t, Go), t)
  {
  }

  lemma PeerPays(n: nat, s: State, t: nat)
    requires Working(s, t) && s.threads[t].job.pc in {Upgrade, Flag}
    ensures Pays(n, s, Next(s, t, Go), t)
  {
  }

  lemma DataPays(n: nat, s: State, t: nat)
    requires Working(s, t) && s.threads[t].job.pc !in {Upgrade, Flag}
    ensures Pays(n, s, Next(s, t, Go), t)
  {
  }

  lemma SpendStep(s: State, t: nat)
    requires Inv(s) && Enabled(s, t, Go)
    ensures Fund(Next(s, t, Go)) < Fund(s) && |Next(s, t, Go).threads| == |s.threads|
  {
    var n := |s.threads|;
    var s' := Next(s, t, Go);
    var th := s.threads[t];
    if th.chore.Ring? {
      var heard := HearAll(th.chore.e, th.chore.ev, s.threads);
      HearCosts(n, th.chore.e, th.chore.ev, s.threads);
      Replace(Purses(n), heard, t, s'.threads[t]);
    } else {
      forall e ensures s.At(e).handles + Held(e, th) <= s.At(e).strong {
        AtLeastOne(HeldAt(e), s.threads, t);
      }
      assert Shape(th) && Knows(s, th);
      if th.chore != Quiet {
        ChorePays(n, s, t);
      } else if th.job.pc in {Again, Sleep} || th.job.pc.Return? {
        WaitPays(n, s, t);
      } else if th.job.pc in {Upgrade, Flag} {
        PeerPays(n, s, t);
      } else {
        DataPays(n, s, t);
      }
      Replace(Purses(n), s.threads, t, s'.threads[t]);
    }
  }

  /** Left alone, with no new calls and no handles opened or closed, the pipe comes to rest: every
      such run is bounded, whoever wakes whom how often. Where it rests, QuiescentSleepers applies. */
  lemma {:induction false} Settles(s: State, ms: seq<Move>, s': State)
    requires Inv(s) && Runs(s, ms, s') && forall k :: 0 <= k < |ms| ==> ms[k].c == Go
    ensures |ms| + Fund(s') <= Fund(s)
    decreases |ms|
  {
    if ms != [] {
      SpendStep(s, ms[0].t);
      InvStep(s, ms[0].t, Go);
      Settles(Next(s, ms[0].t, Go), ms[1..], s');
    }
  }

  /** And from every reachable state it can come to rest. */
  lemma {:induction false} CanSettle(s: State) returns (ms: seq<Move>, s': State)
    requires Inv(s)
    ensures Runs(s, ms, s') && Quiescent(s') && forall k :: 0 <= k < |ms| ==> ms[k].c == Go
    decreases Fund(s)
  {
    if Quiescent(s) {
      ms, s' := [], s;
    } else {
      var t: nat :| t < |s.threads| && Enabled(s, t, Go);
      SpendStep(s, t);
      InvStep(s, t, Go);
      ms, s' := CanSettle(Next(s, t, Go));
      assert ([Move(t, Go)] + ms)[1..] == ms;
      ms := [Move(t, Go)] + ms;
    }
  }
}
