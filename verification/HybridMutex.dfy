/** The cross-process hybrid mutex: a three-state lock word with an auto-reset event behind it, and
    the worker that hammers a deliberately unprotected counter under it. Every interlocked
    operation, every plain load and store of a shared word and every kernel call is one step; any
    number of threads interleave freely. */
module HybridMutex {
  import opened Tally

  /** The run-time knobs of the probe: total threads over both processes, iterations per thread,
      spin bound, and length of the artificial critical section. */
  datatype Config = Config(threads: nat, iters: nat, spin: nat, hold: nat)

  datatype Word = Free | Locked | Contended

  /** Where a thread stands in worker / lock_acquire / lock_release. */
  datatype Pc =
    | Cas                  // fast path: compare-exchange FREE -> LOCKED
    | Spin(tries: nat)     // adaptive spin, that many compare-exchanges left
    | CountFast            // holds the lock, fast_acq not yet incremented
    | CountSlow            // gave up spinning, slow_acq not yet incremented
    | Swap                 // unconditional exchange with CONTENDED
    | Wait                 // WaitForSingleObject on the event
    | Enter                // increment occupancy and look at the result
    | Violation            // saw an occupancy other than 1
    | Load                 // read the counter
    | Store(v: int)        // write the counter
    | Hold(pauses: nat)    // artificial critical section
    | Leave                // decrement occupancy
    | Release              // exchange with FREE
    | Signal               // saw CONTENDED, SetEvent not yet called
    | Done

  /** `left` counts the iterations still to finish, the current one included. */
  datatype Thread = Thread(pc: Pc, left: nat)

  datatype State = State(
    word: Word, event: bool, counter: int, occupancy: int, violations: int,
    slow: int, fast: int, threads: seq<Thread>)

  function Resume(left: nat): Thread {
    if left == 0 then Thread(Done, 0) else Thread(Cas, left)
  }

  function Init(c: Config): State {
    State(Free, false, 0, 0, 0, 0, 0, seq(c.threads, _ => Resume(c.iters)))
  }

  /** A thread can move unless it has finished or sleeps on an event that is not set. */
  predicate Enabled(s: State, t: nat) {
    t < |s.threads| && s.threads[t].pc != Done && (s.threads[t].pc == Wait ==> s.event)
  }

  function Spinning(tries: nat): Pc {
    if tries == 0 then CountSlow else Spin(tries)
  }

  function Holding(pauses: nat): Pc {
    if pauses == 0 then Leave else Hold(pauses)
  }

  /** One step of thread `t`, on values. */
  function Next(c: Config, s: State, t: nat): State
    requires Enabled(s, t)
  {
    var th := s.threads[t];
    match th.pc
    case Cas =>
      if s.word == Free then Goto(s, t, CountFast).(word := Locked) else Goto(s, t, Spinning(c.spin))
    case Spin(k) =>
      if s.word == Free then Goto(s, t, CountFast).(word := Locked)
      else Goto(s, t, Spinning(if k == 0 then 0 else k - 1))
    case CountFast => Goto(s, t, Enter).(fast := s.fast + 1)
    case CountSlow => Goto(s, t, Swap).(slow := s.slow + 1)
    case Swap => Goto(s, t, if s.word == Free then Enter else Wait).(word := Contended)
    case Wait => Goto(s, t, Swap).(event := false)
    case Enter =>
      Goto(s, t, if s.occupancy + 1 != 1 then Violation else Load).(occupancy := s.occupancy + 1)
    case Violation => Goto(s, t, Load).(violations := s.violations + 1)
    case Load => Goto(s, t, Store(s.counter + 1))
    case Store(v) => Goto(s, t, Holding(c.hold)).(counter := v)
    case Hold(k) => Goto(s, t, Holding(if k == 0 then 0 else k - 1))
    case Leave => Goto(s, t, Release).(occupancy := s.occupancy - 1)
    case Release =>
      (if s.word == Contended then Goto(s, t, Signal) else EndIteration(s, t)).(word := Free)
    case Signal => EndIteration(s, t).(event := true)
  }

  function Goto(s: State, t: nat, pc: Pc): State
    requires t < |s.threads|
  {
    s.(threads := s.threads[t := s.threads[t].(pc := pc)])
  }

  function EndIteration(s: State, t: nat): State
    requires t < |s.threads|
  {
    var left := s.threads[t].left;
    s.(threads := s.threads[t := Resume(if left == 0 then 0 else left - 1)])
  }

  // ----- weights -----

  predicate Owns(pc: Pc) {
    pc.CountFast? || pc.Enter? || IsInside(pc) || pc.Release?
  }

  predicate IsInside(pc: Pc) {
    pc.Violation? || pc.Load? || pc.Store? || pc.Hold? || pc.Leave?
  }

  function Owner(th: Thread): nat { if Owns(th.pc) then 1 else 0 }

  function Inside(th: Thread): nat { if IsInside(th.pc) then 1 else 0 }

  function Waiter(th: Thread): nat { if th.pc == Wait then 1 else 0 }

  /** About to put CONTENDED back into the word, or about to set the event. */
  function Waker(th: Thread): nat { if th.pc == Swap || th.pc == Signal then 1 else 0 }

  function Finished(c: Config, th: Thread): nat { if th.left <= c.iters then c.iters - th.left else 0 }

  /** Counter updates this thread has completed. */
  function UpdatesOf(c: Config, th: Thread): nat {
    Finished(c, th) +
    (if th.pc.Hold? || th.pc.Leave? || th.pc.Release? || th.pc.Signal? then 1 else 0)
  }

  function Updates(c: Config): Thread -> nat { (th: Thread) => UpdatesOf(c, th) }

  /** Acquisitions this thread has entered in fast_acq or slow_acq. */
  function EnteredBy(c: Config, th: Thread): nat {
    Finished(c, th) +
    (if th.pc.Cas? || th.pc.Spin? || th.pc.CountFast? || th.pc.CountSlow? || th.pc.Done? then 0 else 1)
  }

  function Entered(c: Config): Thread -> nat { (th: Thread) => EnteredBy(c, th) }

  /** Steps one iteration can take at most, retries aside. */
  function Lap(c: Config): nat { 13 + c.hold + c.spin }

  function PcRank(c: Config, pc: Pc): nat {
    match pc
    case Cas => Lap(c)
    case Spin(k) => 12 + c.hold + k
    case CountSlow => 12 + c.hold
    case Swap => 11 + c.hold
    case Wait => 10 + c.hold
    case CountFast => 10 + c.hold
    case Enter => 9 + c.hold
    case Violation => 8 + c.hold
    case Load => 7 + c.hold
    case Store(_) => 6 + c.hold
    case Hold(k) => 5 + k
    case Leave => 5
    case Release => 4
    case Signal => 3
    case Done => 0
  }

  /** What a thread may still spend. */
  function BudgetOf(c: Config, th: Thread): nat {
    if th.left == 0 then 0 else (th.left - 1) * Lap(c) + PcRank(c, th.pc)
  }

  function Budget(c: Config): Thread -> nat { (th: Thread) => BudgetOf(c, th) }

  /** A set event pays for the one retry it can cause. */
  function Potential(c: Config, s: State): nat {
    Total(Budget(c), s.threads) + (if s.event then 2 else 0)
  }

  // ----- the invariant -----

  ghost predicate ThreadOk(c: Config, s: State, th: Thread) {
    && th.left <= c.iters
    && (th.left == 0 <==> th.pc == Done)
    && !th.pc.Violation?
    && (th.pc.Spin? ==> 1 <= th.pc.tries <= c.spin)
    && (th.pc.Hold? ==> 1 <= th.pc.pauses <= c.hold)
    && (th.pc.Store? ==> th.pc.v == s.counter + 1)
  }

  ghost predicate ThreadsOk(c: Config, s: State) {
    |s.threads| == c.threads && forall i :: 0 <= i < |s.threads| ==> ThreadOk(c, s, s.threads[i])
  }

  /** The word is non-FREE exactly while one thread owns the lock. */
  ghost predicate Exclusion(s: State) {
    && Total(Owner, s.threads) == (if s.word == Free then 0 else 1)
    && s.occupancy == Total(Inside, s.threads)
    && s.violations == 0
  }

  ghost predicate Accounting(c: Config, s: State) {
    && s.counter == Total(Updates(c), s.threads)
    && s.fast + s.slow == Total(Entered(c), s.threads)
  }

  /** A blocked waiter always has a wakeup coming: the event is set, or the owner's releasing
      exchange will see CONTENDED, or some thread is about to set one of the two. */
  ghost predicate NoLostWakeup(s: State) {
    Total(Waiter, s.threads) > 0 ==> s.event || s.word == Contended || Total(Waker, s.threads) > 0
  }

  ghost predicate Inv(c: Config, s: State) {
    ThreadsOk(c, s) && Exclusion(s) && Accounting(c, s) && NoLostWakeup(s)
  }

  // ----- one step -----

  lemma OneOwner(s: State, i: nat, j: nat)
    requires Exclusion(s) && i < |s.threads| && j < |s.threads|
    requires Owns(s.threads[i].pc) && Owns(s.threads[j].pc)
    ensures i == j && s.word != Free
  {
    AtLeastOne(Owner, s.threads, i);
    if i < j { AtLeastTwo(Owner, s.threads, i, j); }
    if j < i { AtLeastTwo(Owner, s.threads, j, i); }
  }

  /** Every step replaces exactly one thread record, so every total moves by one difference. */
  lemma Moves(c: Config, s: State, t: nat, w: Thread -> nat)
    requires Enabled(s, t)
    ensures var s' := Next(c, s, t);
      && |s'.threads| == |s.threads|
      && (forall i :: 0 <= i < |s.threads| && i != t ==> s'.threads[i] == s.threads[i])
      && Total(w, s'.threads) + w(s.threads[t]) == Total(w, s.threads) + w(s'.threads[t])
  {
    var s' := Next(c, s, t);
    assert s'.threads == s.threads[t := s'.threads[t]];
    Replace(w, s.threads, t, s'.threads[t]);
  }

  /** What a step does to the thread that takes it, and to the tallies it is answerable for. */
  lemma ThreadStep(c: Config, s: State, t: nat)
    requires Enabled(s, t) && ThreadOk(c, s, s.threads[t])
    requires s.threads[t].pc == Enter ==> s.occupancy == 0
    ensures var s' := Next(c, s, t); var th, th' := s.threads[t], s'.threads[t];
      && ThreadOk(c, s', th')
      && (s'.counter == s.counter || th.pc.Store?)
  {
  }

  lemma TallyStep(c: Config, s: State, t: nat)
    requires Enabled(s, t) && ThreadOk(c, s, s.threads[t])
    ensures var s' := Next(c, s, t); var th, th' := s.threads[t], s'.threads[t];
      && s'.counter - s.counter == UpdatesOf(c, th') - UpdatesOf(c, th)
      && s'.fast + s'.slow - s.fast - s.slow == EnteredBy(c, th') - EnteredBy(c, th)
  {
  }

  lemma BudgetStep(c: Config, s: State, t: nat)
    requires Enabled(s, t) && ThreadOk(c, s, s.threads[t])
    ensures var s' := Next(c, s, t);
      BudgetOf(c, s'.threads[t]) <
        BudgetOf(c, s.threads[t]) + (if s.event then 2 else 0) - (if s'.event then 2 else 0)
  {
    var th := s.threads[t];
    if th.left > 1 {
      assert (th.left - 1) * Lap(c) == (th.left - 2) * Lap(c) + Lap(c);
    }
  }

  lemma ThreadsStep(c: Config, s: State, t: nat)
    requires Inv(c, s) && Enabled(s, t)
    ensures ThreadsOk(c, Next(c, s, t))
  {
    var s' := Next(c, s, t);
    Moves(c, s, t, Inside);
    if s.threads[t].pc == Enter && Total(Inside, s.threads) > 0 {
      var i := Culprit(Inside, s.threads);
      OneOwner(s, i, t);
    }
    ThreadStep(c, s, t);
    forall i | 0 <= i < |s.threads|
      ensures ThreadOk(c, s', s'.threads[i])
    {
      if i != t {
        assert ThreadOk(c, s, s.threads[i]);
        if s.threads[i].pc.Store? && s.threads[t].pc.Store? {
          OneOwner(s, i, t);
        }
      }
    }
  }

  lemma ExclusionStep(c: Config, s: State, t: nat)
    requires Inv(c, s) && Enabled(s, t)
    ensures Exclusion(Next(c, s, t))
  {
    Moves(c, s, t, Owner);
    Moves(c, s, t, Inside);
    AtLeastOne(Owner, s.threads, t);
    OwnerStep(c, s, t);
  }

  lemma OwnerStep(c: Config, s: State, t: nat)
    requires Enabled(s, t) && ThreadOk(c, s, s.threads[t]) && (Owns(s.threads[t].pc) ==> s.word != Free)
    ensures var s' := Next(c, s, t); var th, th' := s.threads[t], s'.threads[t];
      && Owner(th') - Owner(th) == (if s'.word == Free then 0 else 1) - (if s.word == Free then 0 else 1)
      && s'.occupancy - s.occupancy == Inside(th') - Inside(th) && s'.violations == s.violations
  {
  }

  lemma AccountingStep(c: Config, s: State, t: nat)
    requires Inv(c, s) && Enabled(s, t)
    ensures Accounting(c, Next(c, s, t))
  {
    TallyStep(c, s, t);
    Moves(c, s, t, Updates(c));
    Moves(c, s, t, Entered(c));
  }

  lemma WakeupStep(c: Config, s: State, t: nat)
    requires Inv(c, s) && Enabled(s, t)
    ensures NoLostWakeup(Next(c, s, t))
  {
    var s' := Next(c, s, t);
    Moves(c, s, t, Waiter);
    Moves(c, s, t, Waker);
    AtLeastOne(Waker, s'.threads, t);
  }

  lemma PotentialStep(c: Config, s: State, t: nat)
    requires Inv(c, s) && Enabled(s, t)
    ensures Potential(c, Next(c, s, t)) < Potential(c, s)
  {
    Moves(c, s, t, Budget(c));
    BudgetStep(c, s, t);
  }

  lemma InvStep(c: Config, s: State, t: nat)
    requires Inv(c, s) && Enabled(s, t)
    ensures Inv(c, Next(c, s, t)) && Potential(c, Next(c, s, t)) < Potential(c, s)
  {
    ThreadsStep(c, s, t);
    ExclusionStep(c, s, t);
    AccountingStep(c, s, t);
    WakeupStep(c, s, t);
    PotentialStep(c, s, t);
  }

  lemma InvInit(c: Config)
    ensures Inv(c, Init(c)) && Potential(c, Init(c)) == c.threads * (c.iters * Lap(c))
  {
    var ts := Init(c).threads;
    Uniform(Owner, ts, 0);
    Uniform(Inside, ts, 0);
    Uniform(Waiter, ts, 0);
    Uniform(Updates(c), ts, 0);
    Uniform(Entered(c), ts, 0);
    assert c.iters > 0 ==> (c.iters - 1) * Lap(c) + Lap(c) == c.iters * Lap(c);
    Uniform(Budget(c), ts, c.iters * Lap(c));
  }

  // ----- whole runs -----

  /** `s'` is reached from `s` under the given schedule of thread numbers. */
  ghost predicate Runs(c: Config, s: State, sched: seq<nat>, s': State)
    decreases |sched|
  {
    if sched == [] then s == s'
    else Enabled(s, sched[0]) && Runs(c, Next(c, s, sched[0]), sched[1..], s')
  }

  ghost predicate Stuck(s: State) {
    forall t :: 0 <= t < |s.threads| ==> !Enabled(s, t)
  }

  predicate AllDone(s: State) {
    forall t :: 0 <= t < |s.threads| ==> s.threads[t].pc == Done
  }

  /** What the probe's main checks at the end (the exit code of the child aside). */
  predicate Pass(c: Config, s: State) {
    s.counter == c.threads * c.iters && s.violations == 0
  }

  lemma {:induction false} RunKeepsInv(c: Config, s: State, sched: seq<nat>, s': State)
    requires Inv(c, s) && Runs(c, s, sched, s')
    ensures Inv(c, s') && Potential(c, s') + |sched| <= Potential(c, s)
    decreases |sched|
  {
    if sched != [] {
      InvStep(c, s, sched[0]);
      RunKeepsInv(c, Next(c, s, sched[0]), sched[1..], s');
    }
  }

  /** Every schedule is finite, with an explicit bound: retries on the event included, no run is
      longer than threads * iters * (13 + hold + spin) steps. */
  lemma EveryRunIsShort(c: Config, sched: seq<nat>, s: State)
    requires Runs(c, Init(c), sched, s)
    ensures Inv(c, s)
    ensures |sched| <= c.threads * (c.iters * Lap(c))
  {
    InvInit(c);
    RunKeepsInv(c, Init(c), sched, s);
  }

  /** No deadlock: a state in which nobody can move is a state in which everybody is done. */
  lemma NoDeadlock(c: Config, s: State)
    requires Inv(c, s)
    ensures Stuck(s) <==> AllDone(s)
  {
    if Stuck(s) && !AllDone(s) {
      var t :| 0 <= t < |s.threads| && s.threads[t].pc != Done;
      assert !Enabled(s, t);
      AtLeastOne(Waiter, s.threads, t);
      if Total(Waker, s.threads) > 0 {
        var k := Culprit(Waker, s.threads);
        assert Enabled(s, k);
      } else {
        var o := Culprit(Owner, s.threads);
        assert Enabled(s, o);
      }
    }
  }

  lemma DoneTotals(c: Config, s: State)
    requires Inv(c, s) && AllDone(s)
    ensures s.counter == c.threads * c.iters && s.fast + s.slow == c.threads * c.iters
    ensures s.word == Free && s.occupancy == 0
  {
    Uniform(Owner, s.threads, 0);
    Uniform(Inside, s.threads, 0);
    forall i | 0 <= i < |s.threads| ensures ThreadOk(c, s, s.threads[i]) && s.threads[i] == Thread(Done, 0) {}
    Uniform(Updates(c), s.threads, c.iters);
    Uniform(Entered(c), s.threads, c.iters);
  }

  /** Total correctness under every schedule: a run that cannot be continued has finished all its
      threads, lost no update, seen no violation, and accounted for every acquisition once. */
  lemma TotalCorrectness(c: Config, sched: seq<nat>, s: State)
    requires Runs(c, Init(c), sched, s) && Stuck(s)
    ensures AllDone(s) && Pass(c, s)
    ensures s.fast + s.slow == c.threads * c.iters && s.word == Free && s.occupancy == 0
  {
    EveryRunIsShort(c, sched, s);
    NoDeadlock(c, s);
    DoneTotals(c, s);
  }

  /** From every reachable state some schedule finishes the run. */
  lemma {:induction false} CanFinish(c: Config, s: State) returns (sched: seq<nat>, end: State)
    requires Inv(c, s)
    ensures Runs(c, s, sched, end) && AllDone(end)
    decreases Potential(c, s)
  {
    if AllDone(s) {
      sched, end := [], s;
    } else {
      NoDeadlock(c, s);
      var t: nat :| t < |s.threads| && Enabled(s, t);
      InvStep(c, s, t);
      sched, end := CanFinish(c, Next(c, s, t));
      assert ([t] + sched)[1..] == sched;
      sched := [t] + sched;
    }
  }

  /** No holder ever sees company, and no shared word can outgrow its machine width: the 64-bit
      tallies are bounded by the number of acquisitions, the occupancy by one. */
  lemma WordsStaySmall(c: Config, sched: seq<nat>, s: State)
    requires Runs(c, Init(c), sched, s)
    ensures 0 <= s.counter <= c.threads * c.iters && s.violations == 0
    ensures s.fast + s.slow <= c.threads * c.iters && 0 <= s.occupancy <= 1
    ensures forall t :: 0 <= t < |s.threads| && s.threads[t].pc == Enter ==> s.occupancy == 0
  {
    EveryRunIsShort(c, sched, s);
    forall i | 0 <= i < |s.threads|
      ensures Updates(c)(s.threads[i]) <= c.iters && Entered(c)(s.threads[i]) <= c.iters
    {
      assert ThreadOk(c, s, s.threads[i]);
    }
    Capped(Updates(c), s.threads, c.iters);
    Capped(Entered(c), s.threads, c.iters);
    InsideIsOwner(s.threads);
    forall t | 0 <= t < |s.threads| && s.threads[t].pc == Enter ensures s.occupancy == 0 {
      if Total(Inside, s.threads) > 0 {
        var i := Culprit(Inside, s.threads);
        OneOwner(s, i, t);
      }
    }
  }

  lemma {:induction false} InsideIsOwner(ts: seq<Thread>)
    ensures Total(Inside, ts) <= Total(Owner, ts)
  {
    if ts != [] { InsideIsOwner(ts[1..]); }
  }

  // ----- each tally by itself -----

  function Won(th: Thread): nat { if th.pc == CountFast then 1 else 0 }

  function Blocked(th: Thread): nat { if th.pc == Swap || th.pc == Wait then 1 else 0 }

  /** A step that takes the lock by compare-exchange, and one that takes it by exchange. */
  function WinsCas(s: State, s': State): nat { if s.word == Free && s'.word == Locked then 1 else 0 }

  function WinsSwap(s: State, s': State): nat { if s.word == Free && s'.word == Contended then 1 else 0 }

  ghost function CasWins(c: Config, s: State, sched: seq<nat>): nat
    decreases |sched|
  {
    if sched == [] || !Enabled(s, sched[0]) then 0
    else WinsCas(s, Next(c, s, sched[0])) + CasWins(c, Next(c, s, sched[0]), sched[1..])
  }

  ghost function SwapWins(c: Config, s: State, sched: seq<nat>): nat
    decreases |sched|
  {
    if sched == [] || !Enabled(s, sched[0]) then 0
    else WinsSwap(s, Next(c, s, sched[0])) + SwapWins(c, Next(c, s, sched[0]), sched[1..])
  }

  lemma OwnTally(c: Config, s: State, t: nat)
    requires Enabled(s, t)
    ensures var s' := Next(c, s, t); var th, th' := s.threads[t], s'.threads[t];
      && s'.fast + Won(th') == s.fast + Won(th) + WinsCas(s, s')
      && s'.slow + Blocked(th) == s.slow + Blocked(th') + WinsSwap(s, s')
  {
  }

  lemma {:induction false} TalliesOver(c: Config, s: State, sched: seq<nat>, s': State)
    requires Runs(c, s, sched, s')
    ensures s'.fast + Total(Won, s'.threads) == s.fast + Total(Won, s.threads) + CasWins(c, s, sched)
    ensures s'.slow + Total(Blocked, s.threads) == s.slow + Total(Blocked, s'.threads) + SwapWins(c, s, sched)
    decreases |sched|
  {
    if sched != [] {
      Moves(c, s, sched[0], Won);
      Moves(c, s, sched[0], Blocked);
      OwnTally(c, s, sched[0]);
      TalliesOver(c, Next(c, s, sched[0]), sched[1..], s');
    }
  }

  /** At the end fast_acq counts exactly the acquisitions by compare-exchange and slow_acq those by
      exchange. */
  lemma TalliesAreExact(c: Config, sched: seq<nat>, s: State)
    requires Runs(c, Init(c), sched, s) && AllDone(s)
    ensures s.fast == CasWins(c, Init(c), sched) && s.slow == SwapWins(c, Init(c), sched)
  {
    TalliesOver(c, Init(c), sched, s);
    Uniform(Won, Init(c).threads, 0);
    Uniform(Blocked, Init(c).threads, 0);
    Uniform(Won, s.threads, 0);
    Uniform(Blocked, s.threads, 0);
  }

  // ----- one thread by itself -----

  /** The state after thread `t` alone has taken `n` steps, as long as it can. */
  function Alone(c: Config, s: State, t: nat, n: nat): State {
    if n == 0 then s
    else var s' := Alone(c, s, t, n - 1); if Enabled(s', t) then Next(c, s', t) else s'
  }

  predicate At(s: State, t: nat, pc: Pc) { t < |s.threads| && s.threads[t].pc == pc }

  /** One more step alone brings thread `t` to `pc`, with the word and the counter as given. */
  ghost predicate Brings(c: Config, s: State, t: nat, pc: Pc, word: Word, counter: int) {
    Enabled(s, t) && At(Next(c, s, t), t, pc) && Next(c, s, t).word == word && Next(c, s, t).counter == counter
  }

  ghost predicate Stands(s: State, t: nat, pc: Pc, word: Word, counter: int) {
    At(s, t, pc) && s.word == word && s.counter == counter
  }

  lemma OneAlone(c: Config, s: State, t: nat, n: nat, pc: Pc, word: Word, counter: int)
    requires Brings(c, Alone(c, s, t, n), t, pc, word, counter)
    ensures Stands(Alone(c, s, t, n + 1), t, pc, word, counter)
  {
  }

  lemma CasFails(c: Config, s: State, t: nat)
    requires At(s, t, Cas) && s.word != Free
    ensures Brings(c, s, t, Spinning(c.spin), s.word, s.counter)
  {
  }

  lemma SpinFails(c: Config, s: State, t: nat, k: nat)
    requires At(s, t, Spin(k)) && k >= 1 && s.word != Free
    ensures Brings(c, s, t, if k > 1 then Spin(k - 1) else CountSlow, s.word, s.counter)
  {
  }

  lemma StoreWrites(c: Config, s: State, t: nat, v: int)
    requires At(s, t, Store(v))
    ensures Brings(c, s, t, Holding(c.hold), s.word, v)
  {
  }

  lemma HoldPauses(c: Config, s: State, t: nat, k: nat)
    requires At(s, t, Hold(k)) && k >= 1
    ensures Brings(c, s, t, if k > 1 then Hold(k - 1) else Leave, s.word, s.counter)
  {
  }

  /** Against a held lock a thread tries the compare-exchange once and `spin` times more before it gives up. */
  lemma {:induction false} SpinsOut(c: Config, s: State, t: nat, n: nat)
    requires At(s, t, Cas) && s.word != Free && n <= c.spin
    ensures Stands(Alone(c, s, t, n + 1), t, if n < c.spin then Spin(c.spin - n) else CountSlow, s.word, s.counter)
    decreases n
  {
    if n == 0 {
      CasFails(c, s, t);
    } else {
      SpinsOut(c, s, t, n - 1);
      SpinFails(c, Alone(c, s, t, n), t, c.spin - (n - 1));
    }
    OneAlone(c, s, t, n, if n < c.spin then Spin(c.spin - n) else CountSlow, s.word, s.counter);
  }

  /** Inside, it pauses `hold` times between its update and leaving. */
  lemma {:induction false} HoldsOut(c: Config, s: State, t: nat, v: int, n: nat)
    requires At(s, t, Store(v)) && n <= c.hold
    ensures Stands(Alone(c, s, t, n + 1), t, if n < c.hold then Hold(c.hold - n) else Leave, s.word, v)
    decreases n
  {
    if n == 0 {
      StoreWrites(c, s, t, v);
    } else {
      HoldsOut(c, s, t, v, n - 1);
      HoldPauses(c, Alone(c, s, t, n), t, c.hold - (n - 1));
    }
    OneAlone(c, s, t, n, if n < c.hold then Hold(c.hold - n) else Leave, s.word, v);
  }

  // ----- the same protocol, in place -----

  /** The shared section, the event and the threads' local state, updated in place one step at a
      time under an arbitrary scheduler. */
  class Section {
    const config: Config
    var word: Word
    var event: bool
    var counter: int
    var occupancy: int
    var violations: int
    var slow: int
    var fast: int
    var threads: seq<Thread>

    ghost function Snapshot(): State
      reads this
    {
      State(word, event, counter, occupancy, violations, slow, fast, threads)
    }

    constructor (c: Config)
      ensures config == c && Snapshot() == Init(c)
    {
      config := c;
      word, event := Free, false;
      counter, occupancy, violations, slow, fast := 0, 0, 0, 0, 0;
      threads := seq(c.threads, _ => Resume(c.iters));
    }

    method Jump(t: nat, pc: Pc)
      requires t < |threads|
      modifies this`threads
      ensures threads == old(threads)[t := old(threads)[t].(pc := pc)]
    {
      threads := threads[t := threads[t].(pc := pc)];
    }

    method FinishIteration(t: nat)
      requires t < |threads|
      modifies this`threads
      ensures threads == old(threads)[t := Resume(if old(threads)[t].left == 0 then 0 else old(threads)[t].left - 1)]
    {
      var left := threads[t].left;
      threads := threads[t := Resume(if left == 0 then 0 else left - 1)];
    }

    /** One step of thread `t`. */
    method Step(t: nat)
      requires t < |threads| && threads[t].pc != Done && (threads[t].pc == Wait ==> event)
      modifies this
      ensures Snapshot() == Next(config, old(Snapshot()), t)
    {
      match threads[t].pc {
        case Cas =>
          if word == Free {
            word := Locked;
            Jump(t, CountFast);
          } else {
            Jump(t, Spinning(config.spin));
          }
        case Spin(k) =>
          if word == Free {
            word := Locked;
            Jump(t, CountFast);
          } else {
            Jump(t, Spinning(if k == 0 then 0 else k - 1));
          }
        case CountFast =>
          fast := fast + 1;
          Jump(t, Enter);
        case CountSlow =>
          slow := slow + 1;
          Jump(t, Swap);
        case Swap =>
          var was := word;
          word := Contended;
          Jump(t, if was == Free then Enter else Wait);
        case Wait =>
          event := false;
          Jump(t, Swap);
        case Enter =>
          occupancy := occupancy + 1;
          Jump(t, if occupancy != 1 then Violation else Load);
        case Violation =>
          violations := violations + 1;
          Jump(t, Load);
        case Load => Jump(t, Store(counter + 1));
        case Store(v) =>
          counter := v;
          Jump(t, Holding(config.hold));
        case Hold(k) => Jump(t, Holding(if k == 0 then 0 else k - 1));
        case Leave =>
          occupancy := occupancy - 1;
          Jump(t, Release);
        case Release =>
          var was := word;
          word := Free;
          if was == Contended {
            Jump(t, Signal);
          } else {
            FinishIteration(t);
          }
        case Signal =>
          event := true;
          FinishIteration(t);
      }
    }

    /** Hammer the lock until nobody can move: whatever the scheduler picks, the loop ends, all
        threads have finished, and the final check passes. */
    method Hammer()
      requires Snapshot() == Init(config)
      modifies this
      ensures AllDone(Snapshot()) && Pass(config, Snapshot())
      ensures fast + slow == config.threads * config.iters && word == Free && occupancy == 0
    {
      InvInit(config);
      while exists t :: 0 <= t < |threads| && threads[t].pc != Done && (threads[t].pc == Wait ==> event)
        invariant Inv(config, Snapshot())
        decreases Potential(config, Snapshot())
      {
        var t :| 0 <= t < |threads| && threads[t].pc != Done && (threads[t].pc == Wait ==> event);
        InvStep(config, Snapshot(), t);
        Step(t);
      }
      assert Stuck(Snapshot());
      NoDeadlock(config, Snapshot());
      DoneTotals(config, Snapshot());
    }
  }
}
