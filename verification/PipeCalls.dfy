/** Single attempts: what try_write and try_read answer when nobody interferes, the readiness the
    poll interface reports about them, and the same code as updates in place. */
module PipeCalls {
  import opened Bytes
  import opened Pipe
  import opened PipeInvariant
  import opened PipeTheorems

  datatype Attempt = Finished(r: Result) | TryAgain

  /** The answer of try_read, from one look at the pipe. */
  function ReadAttempt(s: State, len: nat): Attempt {
    if s.r.shut then Finished(ThisEndShutdown)
    else if len == 0 then Finished(Got([]))
    else if s.buf != [] || PeerGone(s, R) then Finished(Got(Peek(s, len)))
    else TryAgain
  }

  /** The answer of try_write, from one look at the pipe. */
  function WriteAttempt(s: State, data: seq<byte>): Attempt {
    if s.w.shut then Finished(ThisEndShutdown)
    else if PeerGone(s, W) then Finished(PeerShutdown)
    else if data == [] then Finished(Wrote(0))
    else if Fits(s, data) then Finished(Wrote(if s.Vacancy() < 0 then 0 else Min(s.Vacancy(), |data|)))
    else TryAgain
  }

  /** The bytes a peek of `len` bytes copies. */
  function Peek(s: State, len: nat): seq<byte> { s.buf[..Min(len, |s.buf|)] }

  function ReadEvents(s: State): set<Event> {
    (if PeerGone(s, R) then {HUP} else {}) +
    (if !s.r.shut && (s.buf != [] || PeerGone(s, R)) then {IN} else {})
  }

  function WriteEvents(s: State): set<Event> {
    (if PeerGone(s, W) then {ERR} else {}) + (if !s.w.shut && |s.buf| < s.capacity then {OUT} else {})
  }

  // ----- an attempt of the step system, undisturbed -----

  /** Run by itself, thread `t` gets to the answer `a`. */
  least predicate Answers(s: State, t: nat, a: Attempt) {
    t < |s.threads| && s.threads[t].job.Busy? &&
    (s.threads[t].job.pc == (if a.TryAgain? then Again else Return(a.r)) ||
     (Enabled(s, t, Go) && Answers(Next(s, t, Go), t, a)))
  }

  ghost predicate Starts(s: State, t: nat, call: Call) {
    t < |s.threads| && s.threads[t].chore == Quiet &&
    s.threads[t].job.Busy? && s.threads[t].job.call == call && s.threads[t].job.pc == Begin
  }

  lemma Holds(s: State, t: nat, call: Call)
    requires Inv(s) && Starts(s, t, call)
    ensures s.At(EndOf(call)).strong > 0 && !s.At(EndOf(call)).shut
    ensures PeerGone(s, EndOf(call)) <==> s.At(Peer(EndOf(call))).strong == 0
  {
    assert Held(EndOf(call), s.threads[t]) > 0;
    Alive(s, t, EndOf(call));
  }

  /** An undisturbed try_read of the step system answers as ReadAttempt says; in particular it says
      TryAgain exactly when poll would not report IN. */
  lemma ReadUndisturbed(s: State, t: nat, len: nat, nonblock: bool)
    requires Inv(s) && Starts(s, t, Read(len, nonblock))
    ensures Answers(s, t, ReadAttempt(s, len))
    ensures len > 0 ==> (ReadAttempt(s, len).TryAgain? <==> IN !in ReadEvents(s))
  {
    Holds(s, t, Read(len, nonblock));
    if len > 0 {
      var s1 := Next(s, t, Go);
      assert s1.threads[t].job.pc == Pop && s1.buf == s.buf && s1.w == s.w;
      var s2 := Next(s1, t, Go);
      if s.buf == [] {
        assert s2.threads[t].job.pc == Upgrade && s2.buf == s.buf && s2.w == s.w;
        var s3 := Next(s2, t, Go);
        assert Answers(s3, t, ReadAttempt(s, len)) by {
          if s.w.strong == 0 {
            assert s3.threads[t].job.pc == PopAgain && s3.buf == [];
            assert Answers(Next(s3, t, Go), t, ReadAttempt(s, len));
          } else {
            assert s3.threads[t].job.pc == Flag && s3.w.shut == s.w.shut;
            assert Answers(Next(s3, t, Go), t, ReadAttempt(s, len));
          }
        }
      }
    }
  }

  /** The same for try_write, once the producer mutex is free. */
  lemma WriteUndisturbed(s: State, t: nat, data: seq<byte>, nonblock: bool)
    requires Inv(s) && Starts(s, t, Write(data, nonblock)) && s.producer == None
    ensures Answers(s, t, WriteAttempt(s, data))
  {
    Holds(s, t, Write(data, nonblock));
    var s1 := Next(s, t, Go);
    assert s1 == Jump(s, t, Upgrade);
    if s.r.strong > 0 {
      var s2 := Next(s1, t, Go);
      assert s2 == Adopt(Jump(s1, t, Flag), R);
      Checks(s2, t, WriteAttempt(s, data));
    }
  }

  /** From the load of the peer's flag on. */
  lemma Checks(s: State, t: nat, a: Attempt)
    requires t < |s.threads| && s.threads[t].chore == Quiet && s.threads[t].job.Busy? && s.threads[t].job.call.Write?
    requires s.threads[t].job.pc == Flag && s.producer == None && |s.buf| <= s.capacity && s.r.strong > 1 && !s.r.shut
    requires a == var data := s.threads[t].job.call.data;
      if data == [] then Finished(Wrote(0))
      else if Fits(s, data) then Finished(Wrote(Min(s.Vacancy(), |data|))) else TryAgain
    ensures Answers(s, t, a)
  {
    var s1 := Next(s, t, Go);
    if s.threads[t].job.call.data != [] {
      assert s1.threads[t].job.pc == Lock && s1.threads[t].chore == Release(R) && s1.r == s.r && s1.buf == s.buf;
      var s2 := Next(s1, t, Go);
      assert s2.threads[t].job.pc == Lock && s2.threads[t].chore == Quiet && s2.buf == s.buf && s2.producer == None;
      Produces(s2, t, a);
    }
  }

  /** A write has to be retried exactly when neither the reader is gone nor the slice fits. For a
      single byte that is when poll would report neither ERR nor OUT; for a longer slice within the
      guarantee OUT is not enough. */
  lemma WriteReadiness(s: State, data: seq<byte>, nonblock: bool)
    requires Inv(s) && s.w.strong > 0 && data != []
    ensures WriteAttempt(s, data).TryAgain? <==> !CouldProceed(s, Write(data, nonblock))
    ensures |data| == 1 ==> (WriteAttempt(s, data).TryAgain? <==> WriteEvents(s) == {})
    ensures s.r.strong > 0 && 0 < s.Vacancy() < |data| <= s.guarantee ==>
      OUT in WriteEvents(s) && WriteAttempt(s, data).TryAgain?
  {
    assert s.At(W).shut == s.w.shut && s.At(R).shut == s.r.shut;
    assert OUT in WriteEvents(s) <==> |s.buf| < s.capacity;
    assert ERR in WriteEvents(s) <==> PeerGone(s, W);
    assert forall ev :: ev in WriteEvents(s) ==> ev == OUT || ev == ERR;
  }

  /** A peek copies as much as is queued or asked for, of the front of the queue. */
  lemma PeekIsLongest(s: State, len: nat)
    ensures Peek(s, len) <= s.buf && |Peek(s, len)| <= len && (|Peek(s, len)| == len || Peek(s, len) == s.buf)
  {
  }

  /** What poll reports, in terms of who is left and what is queued: HUP and ERR exactly when the other end is
      gone, data queued or not; IN when something is queued or the writers are gone; OUT when there is room. */
  lemma PollMeans(s: State)
    requires Inv(s)
    ensures HUP in ReadEvents(s) <==> s.w.strong == 0
    ensures ERR in WriteEvents(s) <==> s.r.strong == 0
    ensures s.r.strong > 0 ==> (IN in ReadEvents(s) <==> |s.buf| > 0 || s.w.strong == 0)
    ensures s.w.strong > 0 ==> (OUT in WriteEvents(s) <==> |s.buf| < s.capacity)
    ensures ReadEvents(s) <= {IN, HUP} && WriteEvents(s) <= {OUT, ERR}
  {
    assert s.At(W).shut == s.w.shut && s.At(R).shut == s.r.shut;
  }

  /** Poll tells the end: a read comes back with nothing exactly when HUP is reported and nothing is
      queued, and a write reports a broken pipe exactly when ERR is reported. */
  lemma PollTellsTheEnd(s: State, len: nat, data: seq<byte>)
    requires Inv(s) && len > 0
    ensures s.r.strong > 0 ==> (ReadAttempt(s, len) == Finished(Got([])) <==> HUP in ReadEvents(s) && s.buf == [])
    ensures s.w.strong > 0 ==> (WriteAttempt(s, data) == Finished(PeerShutdown) <==> ERR in WriteEvents(s))
  {
    assert s.At(W).shut == s.w.shut && s.At(R).shut == s.r.shut;
    assert s.buf != [] ==> |Peek(s, len)| > 0;
  }

  lemma Produces(s: State, t: nat, a: Attempt)
    requires t < |s.threads| && s.threads[t].chore == Quiet && s.threads[t].job.Busy?
    requires s.threads[t].job.call.Write? && s.threads[t].job.call.data != []
    requires s.threads[t].job.pc == Lock && s.producer == None
    requires |s.buf| <= s.capacity
    requires a == var data := s.threads[t].job.call.data;
      if Fits(s, data) then Finished(Wrote(Min(s.Vacancy(), |data|))) else TryAgain
    ensures Answers(s, t, a)
  {
    var s1 := Next(s, t, Go);
    assert s1.threads[t].job == s.threads[t].job.(pc := Vacant) && s1.buf == s.buf;
    ProducesLocked(s1, t, a);
  }

  lemma ProducesLocked(s: State, t: nat, a: Attempt)
    requires t < |s.threads| && s.threads[t].chore == Quiet && s.threads[t].job.Busy?
    requires s.threads[t].job.call.Write? && s.threads[t].job.call.data != []
    requires s.threads[t].job.pc == Vacant
    requires |s.buf| <= s.capacity
    requires a == var data := s.threads[t].job.call.data;
      if Fits(s, data) then Finished(Wrote(Min(s.Vacancy(), |data|))) else TryAgain
    ensures Answers(s, t, a)
  {
    var s1 := Next(s, t, Go);
    if s1.threads[t].job.pc == Push {
      assert Answers(Next(s1, t, Go), t, a);
    }
  }

  // ----- readiness and peeking over runs -----

  /** Readiness is stable: as long as nobody reads, a readable end stays readable, whatever the
      writers and the other handles do; as long as nobody writes, a writable end stays writable. */
  lemma ReadinessIsStable(s: State, ms: seq<Move>, s': State)
    requires Inv(s) && Runs(s, ms, s')
    ensures s'.popped == s.popped && s'.r.strong > 0 && IN in ReadEvents(s) ==> IN in ReadEvents(s')
    ensures s'.chunks == s.chunks && s'.w.strong > 0 && OUT in WriteEvents(s) ==> OUT in WriteEvents(s')
    ensures HUP in ReadEvents(s) ==> HUP in ReadEvents(s')
    ensures ERR in WriteEvents(s) ==> ERR in WriteEvents(s')
  {
    RunExtends(s, ms, s');
    assert s.At(R).shut == s.r.shut && s'.At(R).shut == s'.r.shut;
    assert s.At(W).shut == s.w.shut && s'.At(W).shut == s'.w.shut;
    assert |s.popped| + |s.buf| == |Flat(s.chunks)| && |s'.popped| + |s'.buf| == |Flat(s'.chunks)|;
  }

  /** A peek is a gift: what it copied are the next bytes of the stream, and as long as nobody reads
      they are still the first bytes of whatever a read of that length or more would take. */
  lemma PeekIsAGift(s: State, len: nat, ms: seq<Move>, s': State, len': nat)
    requires Inv(s) && Runs(s, ms, s') && s'.popped == s.popped && len <= len'
    ensures s.popped + Peek(s, len) <= Flat(s.chunks)
    ensures Peek(s, len) <= Peek(s', len')
  {
    RunExtends(s, ms, s');
    PrefixCancels(s.popped, s.buf, s'.buf);
    PrefixTake(s.popped, s.buf, s'.buf, len, len');
  }

  lemma PrefixCancels(p: seq<byte>, a: seq<byte>, b: seq<byte>)
    requires p + a <= p + b
    ensures a <= b
  {
    assert (p + a)[|p|..] == a && (p + b)[|p|..] == b;
    assert (p + b)[..|p + a|] == p + a;
    assert b[..|a|] == (p + b)[..|p + a|][|p|..];
  }

  lemma PrefixTake(p: seq<byte>, a: seq<byte>, b: seq<byte>, m: nat, n: nat)
    requires a <= b && m <= n
    ensures p + a[..Min(m, |a|)] <= p + a && a[..Min(m, |a|)] <= b[..Min(n, |b|)]
  {
  }

  // ----- the same calls, in place -----

  function Taken(a: Attempt): nat { if a.Finished? && a.r.Wrote? then a.r.n else 0 }

  function Accepting(s: State, data: seq<byte>, n: nat): State
    requires n <= |data|
  {
    s.(buf := s.buf + data[..n], chunks := s.chunks + [Chunk(data, n)])
  }

  lemma Accept(s: State, data: seq<byte>, n: nat)
    requires Stream(s) && 0 < n <= |data| && n <= s.Vacancy()
    requires |data| <= s.guarantee ==> n == |data|
    ensures Stream(Accepting(s, data, n)) && Flat(Accepting(s, data, n).chunks) == Flat(s.chunks) + data[..n]
  {
    var s' := Accepting(s, data, n);
    assert s'.chunks[..|s.chunks|] == s.chunks;
    assert s'.popped + s'.buf == (s.popped + s.buf) + data[..n];
  }

  function Taking(a: Attempt): seq<byte> { if a.Finished? && a.r.Got? then a.r.bytes else [] }

  function Delivering(s: State, n: nat): State
    requires n <= |s.buf|
  {
    s.(buf := s.buf[n..], popped := s.popped + s.buf[..n])
  }

  lemma Deliver(s: State, n: nat)
    requires Stream(s) && n <= |s.buf|
    ensures Stream(Delivering(s, n)) && Delivering(s, 0) == s
  {
    assert s.buf[..n] + s.buf[n..] == s.buf;
    assert (s.popped + s.buf[..n]) + s.buf[n..] == s.popped + (s.buf[..n] + s.buf[n..]);
    assert s.buf[0..] == s.buf && s.popped + s.buf[..0] == s.popped;
  }

  /** A pipe used from one thread at a time. `rung` lists the notifications sent, oldest first. */
  class Channel {
    const capacity: nat
    const guarantee: nat
    var buf: seq<byte>
    var w: Endpoint
    var r: Endpoint
    var rung: seq<(End, Event)>
    ghost var chunks: seq<Chunk>
    ghost var popped: seq<byte>

    ghost function View(): State
      reads this
    {
      State(capacity, guarantee, buf, chunks, popped, w, r, None, [])
    }

    ghost predicate Valid()
      reads this
    {
      && w.strong == w.handles && r.strong == r.handles
      && (w.shut <==> w.strong == 0) && (r.shut <==> r.strong == 0)
      && Stream(View())
    }

    constructor (capacity: nat, guarantee: nat)
      ensures Valid() && View() == Init(capacity, guarantee, 0) && rung == []
    {
      this.capacity, this.guarantee := capacity, guarantee;
      buf, rung, chunks, popped := [], [], [], [];
      w, r := Endpoint(1, 1, false), Endpoint(1, 1, false);
      new;
      assert View() == Init(capacity, guarantee, 0);
    }

    /** One attempt to write: the answer is WriteAttempt's, the accepted prefix is appended whole to
        the stream, the reader is rung exactly when something was accepted, and nothing else moves. */
    method TryWrite(data: seq<byte>) returns (a: Attempt)
      requires Valid()
      modifies this
      ensures Valid() && a == WriteAttempt(old(View()), data)
      ensures var n := Taken(a);
        && n <= |data|
        && View() == (if n == 0 then old(View()) else Accepting(old(View()), data, n))
        && Flat(chunks) == old(Flat(chunks)) + data[..n]
        && rung == old(rung) + (if n == 0 then [] else [(R, IN)])
    {
      var n: nat;
      a, n := Admit(data);
      if n > 0 {
        Accept(View(), data, n);
        buf := buf + data[..n];
        chunks := chunks + [Chunk(data, n)];
        rung := rung + [(R, IN)];
      }
    }

    /** The tests of try_write, and how much of the slice they let in. */
    method Admit(data: seq<byte>) returns (a: Attempt, n: nat)
      requires Valid()
      ensures a == WriteAttempt(View(), data) && n == Taken(a) && n <= |data| && n <= View().Vacancy()
      ensures n > 0 && |data| <= guarantee ==> n == |data|
    {
      if w.shut { return Finished(ThisEndShutdown), 0; }
      if r.strong == 0 || r.shut { return Finished(PeerShutdown), 0; }
      if data == [] { return Finished(Wrote(0)), 0; }
      if capacity - |buf| < |data| && |data| <= guarantee { return TryAgain, 0; }
      n := Min(capacity - |buf|, |data|);
      if n == 0 { return TryAgain, 0; }
      a := Finished(Wrote(n));
    }

    /** One attempt to read. The second pop of the source runs only when the writers are gone; with
        nobody else around it takes what the first one did. */
    method TryRead(len: nat) returns (a: Attempt)
      requires Valid()
      modifies this
      ensures Valid() && a == ReadAttempt(old(View()), len)
      ensures var bytes := Taking(a);
        && bytes <= old(buf) && View() == Delivering(old(View()), |bytes|)
        && rung == old(rung) + (if bytes != [] && w.strong > 0 then [(W, OUT)] else [])
    {
      Deliver(View(), 0);
      if r.shut { return Finished(ThisEndShutdown); }
      if len == 0 { return Finished(Got([])); }
      var bytes := PopSlice(len);
      if bytes != [] {
        if w.strong > 0 { rung := rung + [(W, OUT)]; }
        return Finished(Got(bytes));
      }
      if w.strong == 0 || w.shut {
        bytes := PopSlice(len);
        return Finished(Got(bytes));
      }
      return TryAgain;
    }

    /** `pop_slice`: the longest prefix of the queue that fits. */
    method PopSlice(len: nat) returns (bytes: seq<byte>)
      requires Valid()
      modifies this`buf, this`popped
      ensures Valid() && bytes == Peek(old(View()), len) && View() == Delivering(old(View()), |bytes|)
    {
      var n := Min(len, |buf|);
      Deliver(View(), n);
      bytes := buf[..n];
      buf, popped := buf[n..], popped + buf[..n];
    }

    /** Give up one handle of `e`: the last one shuts the end down and tells the peer, if there is
        one left to tell. */
    method Drop(e: End)
      requires Valid() && View().At(e).handles > 0
      modifies this
      ensures Valid() && buf == old(buf) && chunks == old(chunks) && popped == old(popped)
      ensures View().At(Peer(e)) == old(View().At(Peer(e)))
      ensures View().At(e).handles == old(View().At(e).handles) - 1
      ensures View().At(e).shut <==> View().At(e).handles == 0
      ensures rung == old(rung) +
        if View().At(e).shut && View().At(Peer(e)).strong > 0 then [(Peer(e), if e == W then HUP else ERR)] else []
    {
      var p := if e == W then w else r;
      p := Endpoint(p.strong - 1, p.handles - 1, p.strong == 1);
      if e == W { w := p; } else { r := p; }
      var peer := if e == W then r else w;
      if p.shut && peer.strong > 0 {
        rung := rung + [(Peer(e), if e == W then HUP else ERR)];
      }
    }
  }
}
