/** A run that shows why try_read pops a second time, and why at_eof must ask about the peer first. */
module PipeWitness {
  import opened Bytes
  import opened Pipe
  import opened PipeTheorems

  /** Take one more step. */
  lemma Then(s: State, ms: seq<Move>, mid: State, t: nat, c: Choice) returns (ms': seq<Move>)
    requires Runs(s, ms, mid) && Enabled(mid, t, c)
    ensures Runs(s, ms', Next(mid, t, c))
  {
    OneMove(mid, t, c);
    RunsThen(s, ms, mid, [Move(t, c)], Next(mid, t, c));
    ms' := ms + [Move(t, c)];
  }

  function Pair(buf: seq<byte>, chunks: seq<Chunk>, w: Endpoint, r: Endpoint, lock: Option<nat>, reader: Pc,
                writer: Thread): State
  {
    State(1, 0, buf, chunks, [], w, r, lock, [Thread(Busy(Read(1, false), reader, Unregistered), Quiet), writer])
  }

  function Open(n: nat): Endpoint { Endpoint(n, 1, false) }

  function Writer(b: byte, pc: Pc, chore: Chore): Thread {
    Thread(Busy(Write([b], false), pc, Unregistered), chore)
  }

  lemma ReaderStarts() returns (ms: seq<Move>, s: State)
    ensures Runs(Init(1, 0, 2), ms, s) && s == Pair([], [], Open(1), Open(2), None, Begin, Thread(Idle, Quiet))
  {
    var s0 := Init(1, 0, 2);
    assert s0.threads == [Thread(Idle, Quiet), Thread(Idle, Quiet)];
    ms := Then(s0, [], s0, 0, Start(Read(1, false)));
    s := Next(s0, 0, Start(Read(1, false)));
  }

  lemma ReaderBegins() returns (ms: seq<Move>, s: State)
    ensures Runs(Init(1, 0, 2), ms, s) && s == Pair([], [], Open(1), Open(2), None, Pop, Thread(Idle, Quiet))
  {
    var s1;
    ms, s1 := ReaderStarts();
    ms := Then(Init(1, 0, 2), ms, s1, 0, Go);
    s := Next(s1, 0, Go);
  }

  /** The reader starts, and finds the queue empty. */
  lemma ReaderLooks() returns (ms: seq<Move>, s: State)
    ensures Runs(Init(1, 0, 2), ms, s) && s == Pair([], [], Open(1), Open(2), None, Upgrade, Thread(Idle, Quiet))
  {
    var s1;
    ms, s1 := ReaderBegins();
    ms := Then(Init(1, 0, 2), ms, s1, 0, Go);
    s := Next(s1, 0, Go);
  }

  /** The writer starts and borrows an Arc to the reader's end to check on it. */
  lemma WriterStarts(b: byte) returns (ms: seq<Move>, s: State)
    ensures Runs(Pair([], [], Open(1), Open(2), None, Upgrade, Thread(Idle, Quiet)), ms, s)
    ensures s == Pair([], [], Open(2), Open(3), None, Upgrade, Writer(b, Flag, Quiet))
  {
    var s0 := Pair([], [], Open(1), Open(2), None, Upgrade, Thread(Idle, Quiet));
    ms := [];
    ms := Then(s0, ms, s0, 1, Start(Write([b], false)));
    var s1 := Next(s0, 1, Start(Write([b], false)));
    assert s1 == Pair([], [], Open(2), Open(2), None, Upgrade, Writer(b, Begin, Quiet));
    ms := Then(s0, ms, s1, 1, Go);
    var s2 := Next(s1, 1, Go);
    assert s2 == Pair([], [], Open(2), Open(2), None, Upgrade, Writer(b, Upgrade, Quiet));
    ms := Then(s0, ms, s2, 1, Go);
    s := Next(s2, 1, Go);
  }

  /** It finds the reader there, gives the Arc back and takes the mutex. */
  lemma WriterLocks(b: byte) returns (ms: seq<Move>, s: State)
    ensures Runs(Pair([], [], Open(2), Open(3), None, Upgrade, Writer(b, Flag, Quiet)), ms, s)
    ensures s == Pair([], [], Open(2), Open(2), Some(1), Upgrade, Writer(b, Vacant, Quiet))
  {
    var s0 := Pair([], [], Open(2), Open(3), None, Upgrade, Writer(b, Flag, Quiet));
    ms := [];
    ms := Then(s0, ms, s0, 1, Go);
    var s1 := Next(s0, 1, Go);
    assert s1 == Pair([], [], Open(2), Open(3), None, Upgrade, Writer(b, Lock, Release(R)));
    ms := Then(s0, ms, s1, 1, Go);
    var s2 := Next(s1, 1, Go);
    assert s2 == Pair([], [], Open(2), Open(2), None, Upgrade, Writer(b, Lock, Quiet));
    ms := Then(s0, ms, s2, 1, Go);
    s := Next(s2, 1, Go);
  }

  /** It pushes, and sets out to notify. */
  lemma WriterPushes(b: byte) returns (ms: seq<Move>, s: State)
    ensures Runs(Pair([], [], Open(2), Open(2), Some(1), Upgrade, Writer(b, Vacant, Quiet)), ms, s)
    ensures s == Pair([b], [Chunk([b], 1)], Open(2), Open(3), None, Upgrade, Writer(b, Return(Wrote(1)), Ring(R, IN)))
  {
    var s0 := Pair([], [], Open(2), Open(2), Some(1), Upgrade, Writer(b, Vacant, Quiet));
    ms := [];
    ms := Then(s0, ms, s0, 1, Go);
    var s1 := Next(s0, 1, Go);
    assert s1 == Pair([], [], Open(2), Open(2), Some(1), Upgrade, Writer(b, Push, Quiet));
    ms := Then(s0, ms, s1, 1, Go);
    var s2 := Next(s1, 1, Go);
    assert s2 == Pair([b], [Chunk([b], 1)], Open(2), Open(2), None, Upgrade, Writer(b, Return(Wrote(1)), Tell(R, IN)));
    ms := Then(s0, ms, s2, 1, Go);
    s := Next(s2, 1, Go);
  }

  lemma WriterRings(b: byte) returns (ms: seq<Move>, s: State)
    ensures Runs(Pair([b], [Chunk([b], 1)], Open(2), Open(3), None, Upgrade,
                      Writer(b, Return(Wrote(1)), Ring(R, IN))), ms, s)
    ensures s == Pair([b], [Chunk([b], 1)], Open(2), Open(3), None, Upgrade, Writer(b, Return(Wrote(1)), Release(R)))
  {
    var s0 := Pair([b], [Chunk([b], 1)], Open(2), Open(3), None, Upgrade, Writer(b, Return(Wrote(1)), Ring(R, IN)));
    ms := Then(s0, [], s0, 1, Go);
    s := Next(s0, 1, Go);
    assert s.threads == [s0.threads[0], Writer(b, Return(Wrote(1)), Release(R))];
  }

  lemma WriterLetsGo(b: byte) returns (ms: seq<Move>, s: State)
    ensures Runs(Pair([b], [Chunk([b], 1)], Open(2), Open(3), None, Upgrade,
                      Writer(b, Return(Wrote(1)), Ring(R, IN))), ms, s)
    ensures s == Pair([b], [Chunk([b], 1)], Open(2), Open(2), None, Upgrade, Writer(b, Return(Wrote(1)), Quiet))
  {
    var s1;
    ms, s1 := WriterRings(b);
    ms := Then(Pair([b], [Chunk([b], 1)], Open(2), Open(3), None, Upgrade, Writer(b, Return(Wrote(1)), Ring(R, IN))),
               ms, s1, 1, Go);
    s := Next(s1, 1, Go);
  }

  /** It rings, and returns. */
  lemma WriterReturns(b: byte) returns (ms: seq<Move>, s: State)
    ensures Runs(Pair([b], [Chunk([b], 1)], Open(2), Open(3), None, Upgrade,
                      Writer(b, Return(Wrote(1)), Ring(R, IN))), ms, s)
    ensures s == Pair([b], [Chunk([b], 1)], Open(2), Open(2), None, Upgrade, Thread(Idle, Release(W)))
  {
    var ks := [Chunk([b], 1)];
    var s0 := Pair([b], ks, Open(2), Open(3), None, Upgrade, Writer(b, Return(Wrote(1)), Ring(R, IN)));
    var s1;
    ms, s1 := WriterLetsGo(b);
    ms := Then(s0, ms, s1, 1, Go);
    s := Next(s1, 1, Go);
  }

  /** The last handle of the write end is closed, and only now the reader looks for the writer. */
  lemma WriterLeaves(b: byte) returns (ms: seq<Move>, s: State)
    ensures Runs(Pair([b], [Chunk([b], 1)], Open(2), Open(2), None, Upgrade, Thread(Idle, Release(W))), ms, s)
    ensures s == Pair([b], [Chunk([b], 1)], Endpoint(0, 0, false), Open(2), None, PopAgain, Thread(Idle, Shut(W)))
  {
    var ks := [Chunk([b], 1)];
    var s0 := Pair([b], ks, Open(2), Open(2), None, Upgrade, Thread(Idle, Release(W)));
    ms := [];
    ms := Then(s0, ms, s0, 1, Go);
    var s1 := Next(s0, 1, Go);
    assert s1 == Pair([b], ks, Open(1), Open(2), None, Upgrade, Thread(Idle, Quiet));
    ms := Then(s0, ms, s1, 1, Close(W));
    var s2 := Next(s1, 1, Close(W));
    assert s2 == Pair([b], ks, Endpoint(1, 0, false), Open(2), None, Upgrade, Thread(Idle, Release(W)));
    ms := Then(s0, ms, s2, 1, Go);
    var s3 := Next(s2, 1, Go);
    assert s3 == Pair([b], ks, Endpoint(0, 0, false), Open(2), None, Upgrade, Thread(Idle, Shut(W)));
    ms := Then(s0, ms, s3, 0, Go);
    s := Next(s3, 0, Go);
  }

  /** A reachable state in which a reader that found the queue empty has then found the writer gone,
      with a byte in the queue. Without the second pop it would report an end of file; asked in this
      order, empty and then gone, the two tests of at_eof would both have said yes. */
  lemma SecondPopIsNeeded(b: byte) returns (ms: seq<Move>, mid: State, ms': seq<Move>, s: State)
    ensures Runs(Init(1, 0, 2), ms, mid) && mid.buf == [] && At(mid, Upgrade)
    ensures Runs(mid, ms', s) && PeerGone(s, R) && s.buf == [b] && At(s, PopAgain)
  {
    ms, mid := ReaderLooks();
    var m1, s1 := WriterStarts(b);
    var m2, s2 := WriterLocks(b);
    var m3, s3 := WriterPushes(b);
    var m4, s4 := WriterReturns(b);
    var m5, s5 := WriterLeaves(b);
    RunsThen(mid, m1, s1, m2, s2);
    RunsThen(mid, m1 + m2, s2, m3, s3);
    RunsThen(mid, m1 + m2 + m3, s3, m4, s4);
    RunsThen(mid, m1 + m2 + m3 + m4, s4, m5, s5);
    ms', s := m1 + m2 + m3 + m4 + m5, s5;
  }

  /** Thread 0 is at `pc` of a read. */
  ghost predicate At(s: State, pc: Pc) {
    |s.threads| > 0 && s.threads[0].job.Busy? && s.threads[0].job.call.Read? && s.threads[0].job.pc == pc
  }
}
