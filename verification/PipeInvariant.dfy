/** What every step of the pipe keeps: reference counts, shutdown flags, the mutex, the stream, and
    the promise that a waiter whose operation could now proceed has a notification coming. */
module PipeInvariant {
  import opened Bytes
  import opened Tally
  import opened Pipe

  // ----- who holds what -----

  function Held(e: End, th: Thread): nat {
    (if th.job.Busy? && EndOf(th.job.call) == e then 1 else 0) +
    (if th.job.Busy? && th.job.pc == Flag && EndOf(th.job.call) != e then 1 else 0) +
    (if (th.chore.Ring? || th.chore.Release?) && th.chore.e == e then 1 else 0)
  }

  function HeldAt(e: End): Thread -> nat { (th: Thread) => Held(e, th) }

  /** This thread is about to ring the observers of `e`. */
  function Owes(e: End, th: Thread): nat {
    if ((th.chore.Tell? || th.chore.Ring?) && th.chore.e == e) || (th.chore.Shut? && th.chore.e != e)
    then 1 else 0
  }

  function OwedAt(e: End): Thread -> nat { (th: Thread) => Owes(e, th) }

  ghost predicate Owed(s: State, e: End) { Total(OwedAt(e), s.threads) > 0 }

  // ----- the parts of the invariant -----

  ghost predicate CallShape(call: Call, pc: Pc) {
    if call.Write? then
      && pc != Pop && pc != PopAgain
      && (pc in {Lock, Vacant, Push, Again, Sleep} ==> call.data != [])
      && (pc.Return? ==>
            || (pc.r.Wrote? && pc.r.n <= |call.data|)
            || pc.r == PeerShutdown || pc.r == Interrupted || (pc.r == WouldBlock && call.nonblock))
    else
      && pc != Lock && pc != Vacant && pc != Push
      && (pc in {Pop, Upgrade, Flag, PopAgain, Again, Sleep} ==> call.len > 0)
      && (pc.Return? ==>
            || (pc.r.Got? && |pc.r.bytes| <= call.len)
            || pc.r == Interrupted || (pc.r == WouldBlock && call.nonblock))
  }

  ghost predicate Shape(th: Thread) {
    && (th.chore != Quiet && th.job.Busy? ==> th.job.pc in {Lock, Again, PopAgain} || th.job.pc.Return?)
    && (th.chore.Tell? || th.chore.Ring? ==>
          th.chore.ev in (if th.chore.e == R then {IN, HUP} else {OUT, ERR}))
    && (th.job.Busy? ==> CallShape(th.job.call, th.job.pc))
    && (th.job.Busy? && th.job.pc == Sleep ==> th.job.obs != Unregistered && !th.job.call.nonblock)
  }

  predicate InCritical(th: Thread) { th.job.Busy? && (th.job.pc == Vacant || th.job.pc == Push) }

  /** A write of `data` would take something now. */
  predicate Fits(s: State, data: seq<byte>) {
    if |data| <= s.guarantee then |data| <= s.Vacancy() else 0 < s.Vacancy()
  }

  /** What a thread has established about the shared state and may still rely on. */
  ghost predicate Knows(s: State, th: Thread) {
    && (th.chore.Shut? ==> s.At(th.chore.e).strong == 0)
    && (th.job.Busy? ==>
          var call, pc := th.job.call, th.job.pc;
          && (pc == Push && call.Write? && |call.data| <= s.guarantee ==> |call.data| <= s.Vacancy())
          && (pc == PopAgain ==> s.w.strong == 0)
          && (pc == Return(Got([])) && call.Read? && call.len > 0 ==> s.w.strong == 0 && s.buf == [])
          && (pc == Return(PeerShutdown) ==> s.r.strong == 0))
  }

  /** An armed waiter at `e` has passed the test its retry depends on, and the answer of that test
      has changed since: a reader found the queue empty and it is not, or found a writer and there is
      none; a writer found a reader and there is none, or found no room and there is. */
  ghost predicate Needs(s: State, e: End, th: Thread) {
    th.job.Busy? && th.job.obs == Armed && EndOf(th.job.call) == e &&
    var call, pc := th.job.call, th.job.pc;
    if call.Read? then
      || (pc in {Upgrade, Flag, Again, Sleep} && s.buf != [])
      || (pc in {Flag, Again, Sleep} && s.w.strong == 0)
    else
      || (pc in {Flag, Lock, Vacant, Push, Again, Sleep} && s.r.strong == 0)
      || (pc in {Again, Sleep} && Fits(s, call.data))
  }

  /** Such a waiter is owed a ring. */
  ghost predicate Awaits(s: State, th: Thread) {
    forall e :: Needs(s, e, th) ==> Owed(s, e)
  }

  ghost predicate Refs(s: State) {
    forall e :: s.At(e).strong == s.At(e).handles + Total(HeldAt(e), s.threads)
  }

  ghost predicate Shutdown(s: State) {
    forall e :: s.At(e).shut ==> s.At(e).strong == 0
  }

  ghost predicate Mutex(s: State) {
    && (s.producer.Some? ==> s.producer.value < |s.threads|)
    && forall i :: 0 <= i < |s.threads| ==> (s.producer == Some(i) <==> InCritical(s.threads[i]))
  }

  function Flat(chunks: seq<Chunk>): seq<byte>
  {
    if chunks == [] then []
    else
      var last := chunks[|chunks| - 1];
      Flat(chunks[..|chunks| - 1]) + last.data[..Min(last.n, |last.data|)]
  }

  /** What came out followed by what is queued is what went in, in order; and a slice no longer than
      the guarantee went in whole. */
  ghost predicate Stream(s: State) {
    && |s.buf| <= s.capacity
    && s.popped + s.buf == Flat(s.chunks)
    && forall k :: 0 <= k < |s.chunks| ==>
         && 0 < s.chunks[k].n <= |s.chunks[k].data|
         && (|s.chunks[k].data| <= s.guarantee ==> s.chunks[k].n == |s.chunks[k].data|)
  }

  ghost predicate Threads(s: State) {
    forall i :: 0 <= i < |s.threads| ==>
      Shape(s.threads[i]) && Knows(s, s.threads[i]) && Awaits(s, s.threads[i])
  }

  ghost predicate Inv(s: State) {
    Refs(s) && Shutdown(s) && Mutex(s) && Stream(s) && Threads(s)
  }

  // ----- one step, seen from outside -----

  /** A thread that is working on an end, or minding it, keeps it alive. */
  lemma Alive(s: State, i: nat, e: End)
    requires Refs(s) && i < |s.threads| && Held(e, s.threads[i]) > 0
    ensures s.At(e).strong > 0
  {
    AtLeastOne(HeldAt(e), s.threads, i);
  }

  /** Only the stepping thread changes, except that a ring is heard by everybody. */
  ghost predicate OneMoves(s: State, s': State, t: nat) {
    && t < |s.threads| == |s'.threads|
    && s'.capacity == s.capacity && s'.guarantee == s.guarantee
    && forall i :: 0 <= i < |s.threads| && i != t ==>
         s'.threads[i] ==
         if s.threads[t].chore.Ring? then Hear(s.threads[t].chore.e, s.threads[t].chore.ev, s.threads[i])
         else s.threads[i]
  }

  /** A weight that does not look at the observer moves by one difference. */
  lemma Moves(s: State, s': State, t: nat, w: Thread -> nat)
    requires OneMoves(s, s', t)
    requires forall e, ev, th :: w(Hear(e, ev, th)) == w(th)
    ensures Total(w, s'.threads) + w(s.threads[t]) == Total(w, s.threads) + w(s'.threads[t])
  {
    var mid := s.threads[t := s'.threads[t]];
    Replace(w, s.threads, t, s'.threads[t]);
    forall i | 0 <= i < |mid| ensures w(mid[i]) == w(s'.threads[i]) {
      if i != t && s'.threads[i] != s.threads[i] {
        assert w(Hear(s.threads[t].chore.e, s.threads[t].chore.ev, s.threads[i])) == w(s.threads[i]);
      }
    }
    Pointwise(w, w, mid, s'.threads);
  }

  ghost predicate Kept(s: State, s': State) {
    s'.buf == s.buf && s'.chunks == s.chunks && s'.popped == s.popped
  }

  ghost predicate Pushed(s: State, s': State, t: nat)
    requires t < |s.threads| && t < |s'.threads|
  {
    && InCritical(s.threads[t]) && s.threads[t].job.call.Write? && Owes(R, s'.threads[t]) == 1
    && s'.popped == s.popped && |s'.chunks| == |s.chunks| + 1 && s'.chunks[..|s.chunks|] == s.chunks
    && var k := s'.chunks[|s.chunks|];
       && k.data == s.threads[t].job.call.data && 0 < k.n <= |k.data| && k.n <= s.Vacancy()
       && (|k.data| <= s.guarantee ==> k.n == |k.data|)
       && s'.buf == s.buf + k.data[..k.n]
  }

  ghost predicate Popped(s: State, s': State, t: nat)
    requires t < |s.threads| && t < |s'.threads|
  {
    && s'.chunks == s.chunks && |s'.buf| <= |s.buf|
    && (var n := |s.buf| - |s'.buf|; s'.buf == s.buf[n..] && s'.popped == s.popped + s.buf[..n])
    && (Owes(W, s'.threads[t]) == 1 || s.w.strong == 0)
  }

  /** The count of an end moves with what the thread holds of it, a dead end stays dead, and the
      thread under which an end dies owes the other end a ring. */
  ghost predicate EndMoves(s: State, s': State, e: End, th: Thread, th': Thread) {
    && s'.At(e).strong + Held(e, th) + s.At(e).handles == s.At(e).strong + Held(e, th') + s'.At(e).handles
    && (s.At(e).strong == 0 ==> s'.At(e).strong == 0)
    && (s'.At(e).shut ==> s'.At(e).strong == 0)
    && (s'.At(e).strong == 0 ==> s.At(e).strong == 0 || Owes(Peer(e), th') == 1)
  }

  /** A debt is only dropped by ringing or because nobody is left to hear it; and a waiter's own
      test results only go stale through a step that leaves a debt. */
  ghost predicate DebtMoves(s: State, s': State, e: End, th: Thread, th': Thread) {
    && (Owes(e, th) == 1 ==> Owes(e, th') == 1 || s.At(e).strong == 0 || (th.chore.Ring? && th.chore.e == e))
    && (Needs(s', e, th') ==> Needs(s, e, th) || Owes(e, th') == 1)
    && (th.chore.Ring? && th.chore.e == e ==> !Needs(s', e, th'))
  }

  /** Everything the rest of the proof needs to know about one step. */
  ghost predicate Effect(s: State, s': State, t: nat) {
    && OneMoves(s, s', t)
    && var th, th' := s.threads[t], s'.threads[t];
       && (forall e :: EndMoves(s, s', e, th, th'))
       && (forall e :: DebtMoves(s, s', e, th, th'))
       && (Kept(s, s') || Pushed(s, s', t) || Popped(s, s', t))
       && (s'.producer == Some(t) <==> InCritical(th'))
       && (s'.producer == s.producer || (s.producer in {None, Some(t)} && s'.producer in {None, Some(t)}))
       && Shape(th') && Knows(s', th')
  }

  /** What a step may assume: its own thread is in order, and what it holds is alive. */
  ghost predicate Sound(s: State, t: nat) {
    && t < |s.threads| && |s.buf| <= s.capacity
    && Shape(s.threads[t]) && Knows(s, s.threads[t])
    && (s.producer == Some(t) <==> InCritical(s.threads[t]))
    && (forall e :: s.At(e).shut ==> s.At(e).strong == 0)
    && (forall e :: Held(e, s.threads[t]) > 0 ==> s.At(e).strong > 0)
    && (forall e :: s.At(e).handles + Held(e, s.threads[t]) <= s.At(e).strong)
  }

  lemma RingEffect(s: State, t: nat)
    requires Sound(s, t) && s.threads[t].chore.Ring?
    ensures Effect(s, ChoreStep(s, t), t)
  {
  }

  lemma TellEffect(s: State, t: nat)
    requires Sound(s, t) && s.threads[t].chore.Tell?
    ensures Effect(s, ChoreStep(s, t), t)
  {
  }

  lemma ReleaseEffect(s: State, t: nat)
    requires Sound(s, t) && s.threads[t].chore.Release?
    ensures Effect(s, ChoreStep(s, t), t)
  {
  }

  lemma ShutEffect(s: State, t: nat)
    requires Sound(s, t) && s.threads[t].chore.Shut?
    ensures Effect(s, ChoreStep(s, t), t)
  {
  }

  lemma StartEffect(s: State, t: nat, c: Choice)
    requires Sound(s, t) && Enabled(s, t, c) && s.threads[t].chore == Quiet && s.threads[t].job.Idle?
    requires c.Start? || c.Duplicate?
    ensures Effect(s, IdleStep(s, t, c), t)
  {
  }

  lemma HandleEffect(s: State, t: nat, c: Choice)
    requires Sound(s, t) && Enabled(s, t, c) && s.threads[t].chore == Quiet && s.threads[t].job.Idle?
    requires c.Close? || c.Probe?
    ensures Effect(s, IdleStep(s, t, c), t)
  {
  }

  lemma WaitEffect(s: State, t: nat, c: Choice)
    requires Sound(s, t) && Enabled(s, t, c) && s.threads[t].chore == Quiet && s.threads[t].job.Busy?
    requires s.threads[t].job.pc in {Again, Sleep}
    ensures Effect(s, WaitStep(s, t, c), t)
  {
  }

  lemma ReturnEffect(s: State, t: nat)
    requires Sound(s, t) && s.threads[t].chore == Quiet && s.threads[t].job.Busy? && s.threads[t].job.pc.Return?
    ensures Effect(s, WaitStep(s, t, Go), t)
  {
  }

  lemma UpgradeEffect(s: State, t: nat)
    requires Working(s, t) && s.threads[t].job.pc == Upgrade
    ensures Effect(s, Next(s, t, Go), t)
  {
  }

  lemma FlagEffect(s: State, t: nat)
    requires Working(s, t) && s.threads[t].job.pc == Flag
    ensures Effect(s, Next(s, t, Go), t)
  {
    assert Held(Peer(EndOf(s.threads[t].job.call)), s.threads[t]) > 0;
  }

  lemma BeginEffect(s: State, t: nat)
    requires Working(s, t) && s.threads[t].job.pc == Begin
    ensures Effect(s, Next(s, t, Go), t)
  {
    assert Held(EndOf(s.threads[t].job.call), s.threads[t]) > 0;
  }

  lemma LockEffect(s: State, t: nat)
    requires Working(s, t) && s.threads[t].job.pc in {Lock, Vacant}
    ensures Effect(s, Next(s, t, Go), t)
  {
  }

  lemma PushEffect(s: State, t: nat)
    requires Working(s, t) && s.threads[t].job.pc == Push
    ensures Effect(s, Next(s, t, Go), t)
  {
  }

  lemma SlicePops(s: State, s': State, t: nat, n: nat)
    requires t < |s.threads| && t < |s'.threads| && n <= |s.buf| && s'.chunks == s.chunks
    requires s'.buf == s.buf[n..] && s'.popped == s.popped + s.buf[..n]
    requires Owes(W, s'.threads[t]) == 1 || s.w.strong == 0
    ensures Popped(s, s', t)
  {
    assert |s.buf| - |s'.buf| == n;
  }

  lemma PopEffect(s: State, t: nat)
    requires Working(s, t) && s.threads[t].job.pc == Pop
    ensures Effect(s, Next(s, t, Go), t)
  {
    if s.buf == [] { PopNothing(s, t); } else { PopSome(s, t); }
  }

  lemma PopNothing(s: State, t: nat)
    requires Working(s, t) && s.threads[t].job.pc == Pop && s.buf == []
    ensures Effect(s, Next(s, t, Go), t)
  {
  }

  lemma PopSome(s: State, t: nat)
    requires Working(s, t) && s.threads[t].job.pc == Pop && s.buf != []
    ensures Effect(s, Next(s, t, Go), t)
  {
    SlicePops(s, Next(s, t, Go), t, Min(s.threads[t].job.call.len, |s.buf|));
  }

  lemma PopAgainEffect(s: State, t: nat)
    requires Working(s, t) && s.threads[t].job.pc == PopAgain
    ensures Effect(s, Next(s, t, Go), t)
  {
    SlicePops(s, Next(s, t, Go), t, Min(s.threads[t].job.call.len, |s.buf|));
  }

  /** The thread is inside try_write or try_read and can take its next step. */
  ghost predicate Working(s: State, t: nat) {
    Sound(s, t) && Enabled(s, t, Go) && s.threads[t].chore == Quiet && s.threads[t].job.Busy? &&
    s.threads[t].job.pc !in {Again, Sleep} && !s.threads[t].job.pc.Return?
  }

  lemma StepEffect(s: State, t: nat, c: Choice)
    requires Inv(s) && Enabled(s, t, c)
    ensures Effect(s, Next(s, t, c), t)
  {
    var th := s.threads[t];
    forall e ensures s.At(e).handles + Held(e, th) <= s.At(e).strong {
      AtLeastOne(HeldAt(e), s.threads, t);
    }
    assert Sound(s, t);
    match th.chore {
      case Tell(_, _) => TellEffect(s, t);
      case Ring(_, _) => RingEffect(s, t);
      case Release(_) => ReleaseEffect(s, t);
      case Shut(_) => ShutEffect(s, t);
      case Quiet =>
        if th.job.Idle? {
          if c.Start? || c.Duplicate? { StartEffect(s, t, c); } else { HandleEffect(s, t, c); }
        } else {
          match th.job.pc {
            case Begin => BeginEffect(s, t);
            case Upgrade => UpgradeEffect(s, t);
            case Flag => FlagEffect(s, t);
            case Lock => LockEffect(s, t);
            case Vacant => LockEffect(s, t);
            case Push => PushEffect(s, t);
            case Pop => PopEffect(s, t);
            case PopAgain => PopAgainEffect(s, t);
            case Return(_) => ReturnEffect(s, t);
            case _ => WaitEffect(s, t, c);
          }
        }
    }
  }

  // ----- the invariant is kept -----

  /** A waiter whose test goes stale in this step is owed a ring by the thread that took it; any
      other one was owed a ring before, and the step was not that ring. */
  lemma NeedsStep(s: State, s': State, t: nat, i: nat, e: End)
    requires Inv(s) && Effect(s, s', t) && i < |s.threads|
    requires Needs(s', e, s'.threads[i]) && Owes(e, s'.threads[t]) == 0
    ensures Needs(s, e, s.threads[i]) && s.At(e).strong > 0
    ensures !(s.threads[t].chore.Ring? && s.threads[t].chore.e == e)
  {
    assert DebtMoves(s, s', e, s.threads[t], s'.threads[t]);
    if i != t {
      assert Shape(s.threads[t]);
      assert Held(e, s.threads[i]) > 0;
      Alive(s, i, e);
      assert EndMoves(s, s', Peer(e), s.threads[t], s'.threads[t]);
    } else {
      assert Held(e, s.threads[i]) > 0;
      Alive(s, i, e);
    }
  }

  lemma AwaitsStep(s: State, s': State, t: nat, i: nat)
    requires Inv(s) && Effect(s, s', t) && i < |s.threads|
    ensures Awaits(s', s'.threads[i])
  {
    forall e | Needs(s', e, s'.threads[i]) ensures Owed(s', e) {
      AtLeastOne(OwedAt(e), s'.threads, t);
      if Owes(e, s'.threads[t]) == 0 {
        NeedsStep(s, s', t, i, e);
        assert DebtMoves(s, s', e, s.threads[t], s'.threads[t]);
        Moves(s, s', t, OwedAt(e));
        assert Awaits(s, s.threads[i]);
      }
    }
  }

  lemma KnowsStep(s: State, s': State, t: nat, i: nat)
    requires Inv(s) && Effect(s, s', t) && i < |s.threads| && i != t
    ensures Shape(s'.threads[i]) && Knows(s', s'.threads[i])
  {
    assert Shape(s.threads[i]) && Knows(s, s.threads[i]);
    assert EndMoves(s, s', W, s.threads[t], s'.threads[t]);
    assert EndMoves(s, s', R, s.threads[t], s'.threads[t]);
    if Pushed(s, s', t) {
      assert Held(W, s.threads[t]) > 0;
      Alive(s, t, W);
      assert s.producer == Some(t);
    }
  }

  lemma PushStream(s: State, s': State, t: nat)
    requires Stream(s) && OneMoves(s, s', t) && Pushed(s, s', t)
    ensures Stream(s') && Flat(s.chunks) <= Flat(s'.chunks)
  {
    var k := s'.chunks[|s.chunks|];
    assert s'.chunks[..|s'.chunks| - 1] == s.chunks;
    assert Flat(s'.chunks) == Flat(s.chunks) + k.data[..k.n];
    assert s'.popped + s'.buf == (s.popped + s.buf) + k.data[..k.n];
    assert s'.chunks == s.chunks + [k];
  }

  lemma PopStream(s: State, s': State, t: nat)
    requires Stream(s) && OneMoves(s, s', t) && Popped(s, s', t)
    ensures Stream(s') && Flat(s.chunks) <= Flat(s'.chunks)
  {
    MoveAcross(s.popped, s.buf, |s.buf| - |s'.buf|);
  }

  lemma MoveAcross(popped: seq<byte>, buf: seq<byte>, n: nat)
    requires n <= |buf|
    ensures (popped + buf[..n]) + buf[n..] == popped + buf
  {
    assert buf[..n] + buf[n..] == buf;
    assert (popped + buf[..n]) + buf[n..] == popped + (buf[..n] + buf[n..]);
  }

  lemma RefsKept(s: State, s': State, t: nat)
    requires Refs(s) && Effect(s, s', t)
    ensures Refs(s') && Shutdown(s')
  {
    forall e ensures s'.At(e).strong == s'.At(e).handles + Total(HeldAt(e), s'.threads)
             ensures s'.At(e).shut ==> s'.At(e).strong == 0
    {
      assert EndMoves(s, s', e, s.threads[t], s'.threads[t]);
      Moves(s, s', t, HeldAt(e));
    }
  }

  lemma MutexKept(s: State, s': State, t: nat)
    requires Mutex(s) && Effect(s, s', t)
    ensures Mutex(s')
  {
    forall i | 0 <= i < |s'.threads| ensures s'.producer == Some(i) <==> InCritical(s'.threads[i]) {
      if i != t { assert InCritical(s'.threads[i]) == InCritical(s.threads[i]); }
    }
  }

  lemma ThreadsKept(s: State, s': State, t: nat)
    requires Inv(s) && Effect(s, s', t)
    ensures Threads(s')
  {
    forall i | 0 <= i < |s'.threads|
      ensures Shape(s'.threads[i]) && Knows(s', s'.threads[i]) && Awaits(s', s'.threads[i])
    {
      AwaitsStep(s, s', t, i);
      if i != t { KnowsStep(s, s', t, i); }
    }
  }

  lemma StreamKept(s: State, s': State, t: nat)
    requires Stream(s) && Effect(s, s', t)
    ensures Stream(s') && Flat(s.chunks) <= Flat(s'.chunks)
  {
    if Pushed(s, s', t) {
      PushStream(s, s', t);
    } else if Popped(s, s', t) {
      PopStream(s, s', t);
    }
  }

  /** Every step of every thread keeps the invariant. */
  lemma InvStep(s: State, t: nat, c: Choice)
    requires Inv(s) && Enabled(s, t, c)
    ensures Inv(Next(s, t, c)) && Effect(s, Next(s, t, c), t)
    ensures Flat(s.chunks) <= Flat(Next(s, t, c).chunks)
  {
    var s' := Next(s, t, c);
    StepEffect(s, t, c);
    RefsKept(s, s', t);
    MutexKept(s, s', t);
    ThreadsKept(s, s', t);
    StreamKept(s, s', t);
  }

  lemma InvInit(capacity: nat, guarantee: nat, threads: nat)
    ensures Inv(Init(capacity, guarantee, threads))
  {
    var s := Init(capacity, guarantee, threads);
    forall i | 0 <= i < |s.threads| ensures s.threads[i] == Thread(Idle, Quiet) {}
    forall e ensures s.At(e).strong == s.At(e).handles + Total(HeldAt(e), s.threads) {
      Uniform(HeldAt(e), s.threads, 0);
    }
  }
}
