/** The pipe: a bounded byte queue between reference-counted ends. The producer and the consumer sit
    behind different mutexes, end of file is decided by upgrading a weak pointer, and notifications
    are sent after the data has moved. Every one of those actions is a step of its own here, and any
    number of threads interleave. */
module Pipe {
  import opened Bytes

  datatype End = W | R

  function Peer(e: End): End { if e == W then R else W }

  datatype Event = IN | OUT | ERR | HUP

  /** One shared end: the strong count of its Arc, how many of those references are long-lived
      handles (descriptor-table entries and detached ends), and its is_shutdown flag. */
  datatype Endpoint = Endpoint(strong: nat, handles: nat, shut: bool)

  datatype Call =
    | Write(data: seq<byte>, nonblock: bool)
    | Read(len: nat, nonblock: bool)

  function EndOf(call: Call): End { if call.Write? then W else R }

  datatype Result =
    | Wrote(n: nat)
    | Got(bytes: seq<byte>)
    | ThisEndShutdown
    | PeerShutdown
    | WouldBlock
    | Interrupted

  /** Where a call stands: inside try_write / try_read, or in the wait loop around them. */
  datatype Pc =
    | Begin            // test this end's shutdown flag
    | Upgrade          // is_peer_shutdown, first half: upgrade the weak pointer
    | Flag             // is_peer_shutdown, second half: load the peer's flag, holding an Arc to it
    | Lock             // take the producer mutex
    | Vacant           // vacancy test, under the mutex
    | Push             // push_slice, then unlock
    | Pop              // pop_slice
    | PopAgain         // pop_slice once more, after the peer was found gone
    | Again            // the attempt came back with TryAgain
    | Sleep            // waiting for the observer
    | Return(r: Result)

  /** The observer of a blocking call: not registered yet, registered, or rung since its last reset. */
  datatype Observer = Unregistered | Armed | Ready

  /** A notification or a drop in progress. Each of these turns into the next one, so a thread never
      carries more than one, however deeply the drops nest. */
  datatype Chore =
    | Quiet
    | Tell(e: End, ev: Event)    // upgrade the pointer to `e` in order to notify it
    | Ring(e: End, ev: Event)    // notify the observers of `e`, holding an Arc to it
    | Release(e: End)            // give up one Arc to `e`
    | Shut(e: End)               // Drop of `e`: set its shutdown flag

  datatype Job = Idle | Busy(call: Call, pc: Pc, obs: Observer)

  datatype Thread = Thread(job: Job, chore: Chore)

  /** A push: the slice the caller offered and how much of it was taken. */
  datatype Chunk = Chunk(data: seq<byte>, n: nat)

  /** `chunks` and `popped` are the history of the queue; `guarantee` is
      atomic_slice_guarantee_size (0 when not requested). */
  datatype State = State(
    capacity: nat, guarantee: nat, buf: seq<byte>, chunks: seq<Chunk>, popped: seq<byte>,
    w: Endpoint, r: Endpoint, producer: Option<nat>, threads: seq<Thread>)
  {
    function At(e: End): Endpoint { if e == W then w else r }

    function Put(e: End, p: Endpoint): State { if e == W then this.(w := p) else this.(r := p) }

    function Vacancy(): int { capacity - |buf| }
  }

  /** What an idle thread may start (a call; opening, detaching or closing a handle; asking whether the
      peer of `e` is gone, which borrows an Arc to it for a moment), and what may happen to a sleeping
      one. */
  datatype Choice =
    | Go | Start(call: Call) | Duplicate(e: End) | Close(e: End) | Probe(e: End) | Interrupt | Poke

  function Init(capacity: nat, guarantee: nat, threads: nat): State {
    State(capacity, guarantee, [], [], [], Endpoint(1, 1, false), Endpoint(1, 1, false), None,
          seq(threads, _ => Thread(Idle, Quiet)))
  }

  predicate Enabled(s: State, t: nat, c: Choice) {
    t < |s.threads| &&
    var th := s.threads[t];
    if th.chore != Quiet then c == Go
    else if th.job.Idle? then
      match c
      case Start(call) => s.At(EndOf(call)).handles > 0
      case Duplicate(e) => s.At(e).handles > 0
      case Close(e) => s.At(e).handles > 0
      case Probe(e) => s.At(e).handles > 0
      case _ => false
    else if th.job.pc == Sleep then c == Interrupt || c == Poke || (c == Go && th.job.obs == Ready)
    else if th.job.pc == Lock then c == Go && s.producer == None
    else c == Go
  }

  function Next(s: State, t: nat, c: Choice): State
    requires Enabled(s, t, c)
  {
    var th := s.threads[t];
    if th.chore != Quiet then ChoreStep(s, t)
    else if th.job.Idle? then IdleStep(s, t, c)
    else if th.job.pc in {Again, Sleep} || th.job.pc.Return? then WaitStep(s, t, c)
    else if th.job.call.Write? then WriteStep(s, t)
    else ReadStep(s, t)
  }

  function Set(s: State, t: nat, th: Thread): State
    requires t < |s.threads|
  {
    s.(threads := s.threads[t := th])
  }

  function Jump(s: State, t: nat, pc: Pc): State
    requires t < |s.threads| && s.threads[t].job.Busy?
  {
    Set(s, t, s.threads[t].(job := s.threads[t].job.(pc := pc)))
  }

  function JumpAnd(s: State, t: nat, pc: Pc, chore: Chore): State
    requires t < |s.threads| && s.threads[t].job.Busy?
  {
    Set(s, t, Thread(s.threads[t].job.(pc := pc), chore))
  }

  function Adopt(s: State, e: End): State {
    s.Put(e, s.At(e).(strong := s.At(e).strong + 1))
  }

  function Disown(s: State, e: End): State {
    s.Put(e, s.At(e).(strong := if s.At(e).strong == 0 then 0 else s.At(e).strong - 1))
  }

  /** The events each kind of waiter is registered for, the always-polled ones included. */
  predicate Matches(call: Call, ev: Event) {
    ev == ERR || ev == HUP || ev == (if call.Write? then OUT else IN)
  }

  function Hear(e: End, ev: Event, th: Thread): Thread {
    if th.job.Busy? && EndOf(th.job.call) == e && th.job.obs == Armed && Matches(th.job.call, ev)
    then th.(job := th.job.(obs := Ready)) else th
  }

  function HearAll(e: End, ev: Event, ts: seq<Thread>): seq<Thread> {
    seq(|ts|, i requires 0 <= i < |ts| => Hear(e, ev, ts[i]))
  }

  function ChoreStep(s: State, t: nat): State
    requires t < |s.threads|
  {
    var th := s.threads[t];
    match th.chore
    case Quiet => s
    case Tell(e, ev) =>
      if s.At(e).strong == 0 then Set(s, t, th.(chore := Quiet))
      else Adopt(Set(s, t, th.(chore := Ring(e, ev))), e)
    case Ring(e, ev) =>
      s.(threads := HearAll(e, ev, s.threads)[t := Hear(e, ev, th).(chore := Release(e))])
    case Release(e) =>
      Disown(Set(s, t, th.(chore := if s.At(e).strong <= 1 then Shut(e) else Quiet)), e)
    case Shut(e) =>
      Set(s, t, th.(chore := Tell(Peer(e), if e == W then HUP else ERR)))
      .Put(e, s.At(e).(shut := true))
  }

  function IdleStep(s: State, t: nat, c: Choice): State
    requires t < |s.threads|
  {
    match c
    case Start(call) => Adopt(Set(s, t, Thread(Busy(call, Begin, Unregistered), Quiet)), EndOf(call))
    case Duplicate(e) => s.Put(e, Endpoint(s.At(e).strong + 1, s.At(e).handles + 1, s.At(e).shut))
    case Close(e) =>
      Set(s, t, Thread(Idle, Release(e)))
      .Put(e, s.At(e).(handles := if s.At(e).handles == 0 then 0 else s.At(e).handles - 1))
    case Probe(e) =>
      if s.At(Peer(e)).strong == 0 then s else Adopt(Set(s, t, Thread(Idle, Release(Peer(e)))), Peer(e))
    case _ => s
  }

  /** The wait loop: an attempt that has to be retried registers the observer first, sleeps the
      second time, and resets the observer before it tries again. */
  function WaitStep(s: State, t: nat, c: Choice): State
    requires t < |s.threads| && s.threads[t].job.Busy?
  {
    var job := s.threads[t].job;
    match job.pc
    case Again =>
      if job.call.nonblock then Jump(s, t, Return(WouldBlock))
      else if job.obs == Unregistered then Set(s, t, Thread(job.(pc := Begin, obs := Armed), Quiet))
      else Jump(s, t, Sleep)
    case Sleep =>
      if c == Interrupt then Jump(s, t, Return(Interrupted))
      else Set(s, t, Thread(job.(pc := Begin, obs := Armed), Quiet))
    case _ => Set(s, t, Thread(Idle, Release(EndOf(job.call))))
  }

  function UpgradeStep(s: State, t: nat, gone: Pc): State
    requires t < |s.threads| && s.threads[t].job.Busy?
  {
    var peer := Peer(EndOf(s.threads[t].job.call));
    if s.At(peer).strong == 0 then Jump(s, t, gone) else Adopt(Jump(s, t, Flag), peer)
  }

  function FlagStep(s: State, t: nat, gone: Pc, there: Pc): State
    requires t < |s.threads| && s.threads[t].job.Busy?
  {
    var peer := Peer(EndOf(s.threads[t].job.call));
    JumpAnd(s, t, if s.At(peer).shut then gone else there, Release(peer))
  }

  function WriteStep(s: State, t: nat): State
    requires t < |s.threads| && s.threads[t].job.Busy? && s.threads[t].job.call.Write?
  {
    var data := s.threads[t].job.call.data;
    match s.threads[t].job.pc
    case Begin => Jump(s, t, if s.w.shut then Return(ThisEndShutdown) else Upgrade)
    case Upgrade => UpgradeStep(s, t, Return(PeerShutdown))
    case Flag => FlagStep(s, t, Return(PeerShutdown), if data == [] then Return(Wrote(0)) else Lock)
    case Lock => Jump(s, t, Vacant).(producer := Some(t))
    case Vacant =>
      if s.Vacancy() < |data| && |data| <= s.guarantee then Jump(s, t, Again).(producer := None)
      else Jump(s, t, Push)
    case Push =>
      var n := if s.Vacancy() < 0 then 0 else Min(s.Vacancy(), |data|);
      if n == 0 then Jump(s, t, Again).(producer := None)
      else JumpAnd(s, t, Return(Wrote(n)), Tell(R, IN))
           .(producer := None, buf := s.buf + data[..n], chunks := s.chunks + [Chunk(data, n)])
    case _ => s
  }

  function ReadStep(s: State, t: nat): State
    requires t < |s.threads| && s.threads[t].job.Busy? && s.threads[t].job.call.Read?
  {
    var len := s.threads[t].job.call.len;
    var n := Min(len, |s.buf|);
    match s.threads[t].job.pc
    case Begin =>
      Jump(s, t, if s.r.shut then Return(ThisEndShutdown) else if len == 0 then Return(Got([])) else Pop)
    case Pop =>
      if n == 0 then Jump(s, t, Upgrade)
      else JumpAnd(s, t, Return(Got(s.buf[..n])), Tell(W, OUT)).(buf := s.buf[n..], popped := s.popped + s.buf[..n])
    case Upgrade => UpgradeStep(s, t, PopAgain)
    case Flag => FlagStep(s, t, PopAgain, Again)
    case PopAgain => Jump(s, t, Return(Got(s.buf[..n]))).(buf := s.buf[n..], popped := s.popped + s.buf[..n])
    case _ => s
  }
}
