/** The synchronized pipe over a line buffer (internal/bufiox/pipe.go). */
module BufferedPipes {
  import opened LineBuffers

  datatype WriteError = NoError | ClosedPipe | TooSmall

  /** What one pass of Read's loop does under the lock. */
  datatype Pass = Got(n: nat) | Eof | Wait

  /** The pass as a function of the queue, the closed flag and the length of the reader's slice. */
  function PassOf(queue: seq<byte>, closed: bool, len: nat): Pass {
    var n := if len <= |queue| then len else |queue|;
    if n > 0 then Got(n) else if closed then Eof else Wait
  }

  class BufferedPipe {
    const buf: LineBuffer
    var closed: bool

    ghost predicate Valid()
      reads this, buf, buf.buf
    {
      buf.Valid()
    }

    constructor (buf: LineBuffer)
      requires buf.Valid()
      ensures Valid() && this.buf == buf && !closed
    {
      this.buf, closed := buf, false;
    }

    /** Write; `signal` says whether a waiting reader is woken. */
    method Write(p: seq<byte>) returns (n: nat, err: WriteError, signal: bool)
      requires Valid()
      modifies buf, buf.buf
      ensures Valid()
      ensures closed ==> n == 0 && err == ClosedPipe && !signal && buf.Contents() == old(buf.Contents())
      ensures !closed ==> && Written(buf.Contents(), n) == WriteQueue(old(buf.Contents()), p, buf.capacity)
                          && (err == if n == 0 && p != [] then TooSmall else NoError)
                          && (signal <==> n > 0)
    {
      if closed {
        return 0, ClosedPipe, false;
      }
      var failed;
      n, failed := buf.Write(p);
      err := if failed then TooSmall else NoError;
      signal := n > 0;
    }

    /** One pass of Read: from taking the lock to returning or waiting. */
    method ReadPass(p: array<byte>) returns (pass: Pass)
      requires Valid() && p != buf.buf
      modifies buf, p
      ensures Valid()
      ensures pass == PassOf(old(buf.Contents()), closed, p.Length)
      ensures pass.Got? ==> && p[..pass.n] == old(buf.Contents())[..pass.n]
                            && buf.Contents() == old(buf.Contents())[pass.n..]
      ensures !pass.Got? ==> buf.Contents() == old(buf.Contents()) && p[..] == old(p[..])
    {
      var n := buf.Read(p);
      if n > 0 {
        return Got(n);
      }
      assert p[0..] == p[..] && old(p[..])[0..] == old(p[..]);
      if closed {
        return Eof;
      }
      pass := Wait;
    }

    /** Close; closing twice is an error.  Every waiting reader is woken. */
    method Close() returns (ok: bool)
      requires Valid()
      modifies this
      ensures Valid() && closed && (ok <==> !old(closed))
    {
      ok := !closed;
      closed := true;
    }
  }

  // ----- one writer and one reader, interleaved -----

  datatype Reader = Idle | Running(len: nat) | Waiting(len: nat)

  /** Bytes that have left the queue: handed to the reader, or evicted. */
  datatype Gone = Gone(b: byte, delivered: bool)

  datatype State = State(queue: seq<byte>, closed: bool, reader: Reader, accepted: seq<byte>, gone: seq<Gone>)

  datatype Action = DoWrite(p: seq<byte>) | DoClose | StartRead(len: nat) | RunRead

  predicate Enabled(s: State, a: Action) {
    match a
    case StartRead(_) => s.reader.Idle?
    case RunRead => s.reader.Running?
    case _ => true
  }

  function Wake(r: Reader): Reader {
    if r.Waiting? then Running(r.len) else r
  }

  function Mark(s: seq<byte>, delivered: bool): seq<Gone> {
    seq(|s|, i requires 0 <= i < |s| => Gone(s[i], delivered))
  }

  function Do(s: State, a: Action, capacity: nat): State
    requires Enabled(s, a)
  {
    match a
    case DoWrite(p) =>
      if s.closed then s
      else
        var w := WriteQueue(s.queue, p, capacity);
        var all := s.queue + p[..w.n];
        State(w.queue, false, if w.n > 0 then Wake(s.reader) else s.reader, s.accepted + p[..w.n],
              s.gone + Mark(all[..if |w.queue| <= |all| then |all| - |w.queue| else 0], false))
    case DoClose => if s.closed then s else s.(closed := true, reader := Wake(s.reader))
    case StartRead(len) => s.(reader := Running(len))
    case RunRead =>
      match PassOf(s.queue, s.closed, s.reader.len)
      case Got(n) => s.(queue := s.queue[n..], reader := Idle, gone := s.gone + Mark(s.queue[..n], true))
      case Eof => s.(reader := Idle)
      case Wait => s.(reader := Waiting(s.reader.len))
  }

  /** states is a run of the pipe taking the actions of trace. */
  ghost predicate Behaves(states: seq<State>, trace: seq<Action>, capacity: nat) {
    && |states| == |trace| + 1
    && states[0] == State([], false, Idle, [], [])
    && forall i :: 0 <= i < |trace| ==> Enabled(states[i], trace[i])
                                        && states[i + 1] == Do(states[i], trace[i], capacity)
  }

  function Bytes(g: seq<Gone>): seq<byte> {
    seq(|g|, i requires 0 <= i < |g| => g[i].b)
  }

  ghost predicate Inv(s: State, capacity: nat) {
    && |s.queue| <= capacity
    && Bytes(s.gone) + s.queue == s.accepted
    && (s.reader.Waiting? ==> !s.closed && (s.reader.len > 0 ==> s.queue == []))
  }

  lemma {:induction false} PendingIsSuffix(s: seq<byte>) returns (k: nat)
    ensures k <= |s| && Pending(s) == s[k..] && Boundary(s, k)
    decreases |s|
  {
    var n := LineEnd(s);
    LineEndFirst(s);
    if n == 0 {
      k := 0;
      assert s[0..] == s;
    } else {
      var k' := PendingIsSuffix(s[n..]);
      k := n + k';
      assert s[n..][k'..] == s[k..];
      if k' > 0 { assert s[n..][k' - 1] == s[k - 1]; }
    }
  }

  /** Whatever a write drops is whole lines off the front of what was queued or just written. */
  lemma WriteKeepsSuffix(s: seq<byte>, p: seq<byte>, capacity: nat) returns (k: nat)
    requires |s| <= capacity
    ensures var w := WriteQueue(s, p, capacity);
            var all := s + p[..w.n];
            && k <= |all| && w.queue == all[k..] && Boundary(all, k) && |w.queue| <= capacity
  {
    var w := WriteQueue(s, p, capacity);
    WriteMeaning(s, p, capacity);
    var all := s + p[..w.n];
    if w.n == |p| {
      assert p[..w.n] == p;
      k :| k <= |all| && w.queue == all[k..] && Boundary(all, k) && |w.queue| <= capacity;
    } else {
      k := PendingIsSuffix(all);
      WriteFits(s, p, capacity);
    }
  }

  lemma {:induction false} WriteFits(s: seq<byte>, p: seq<byte>, capacity: nat)
    requires |s| <= capacity
    ensures |WriteQueue(s, p, capacity).queue| <= capacity
    decreases |p|
  {
    if p != [] {
      var k := Segment(p);
      var e := EvictDrops(s, k, capacity);
      if |s[e..]| + k <= capacity {
        WriteFits(s[e..] + p[..k], p[k..], capacity);
      }
    }
  }

  lemma BytesMark(g: seq<Gone>, s: seq<byte>, delivered: bool)
    ensures Bytes(g + Mark(s, delivered)) == Bytes(g) + s
  {}

  lemma WriteKeeps(s: State, p: seq<byte>, capacity: nat)
    requires Inv(s, capacity) && !s.closed
    ensures Inv(Do(s, DoWrite(p), capacity), capacity)
  {
    var w := WriteQueue(s.queue, p, capacity);
    var all := s.queue + p[..w.n];
    var k := WriteKeepsSuffix(s.queue, p, capacity);
    Conserved(s.gone, s.queue, s.accepted, p[..w.n], k, false);
  }

  lemma Conserved(gone: seq<Gone>, queue: seq<byte>, accepted: seq<byte>, more: seq<byte>, k: nat, delivered: bool)
    requires Bytes(gone) + queue == accepted && k <= |queue + more|
    ensures Bytes(gone + Mark((queue + more)[..k], delivered)) + (queue + more)[k..] == accepted + more
  {
    var all := queue + more;
    BytesMark(gone, all[..k], delivered);
    assert Bytes(gone) + all[..k] + all[k..] == Bytes(gone) + all;
    assert Bytes(gone) + all == Bytes(gone) + queue + more;
  }

  lemma ReadKeeps(s: State, capacity: nat)
    requires Inv(s, capacity) && s.reader.Running?
    ensures Inv(Do(s, RunRead, capacity), capacity)
  {
    var pass := PassOf(s.queue, s.closed, s.reader.len);
    if pass.Got? {
      Conserved(s.gone, s.queue, s.accepted, [], pass.n, true);
      assert s.queue + [] == s.queue && s.accepted + [] == s.accepted;
    }
  }

  lemma StepKeeps(s: State, a: Action, capacity: nat)
    requires Inv(s, capacity) && Enabled(s, a)
    ensures Inv(Do(s, a, capacity), capacity)
  {
    match a
    case DoWrite(p) => if !s.closed { WriteKeeps(s, p, capacity); }
    case RunRead => ReadKeeps(s, capacity);
    case _ =>
  }

  lemma {:induction false} AlwaysInv(states: seq<State>, trace: seq<Action>, capacity: nat, i: nat)
    requires Behaves(states, trace, capacity) && i <= |trace|
    ensures Inv(states[i], capacity)
  {
    if i > 0 {
      AlwaysInv(states, trace, capacity, i - 1);
      StepKeeps(states[i - 1], trace[i - 1], capacity);
    }
  }

  /** Conservation: at any time, the bytes delivered and evicted so far, in order,
      followed by the bytes queued, are exactly the bytes Write accepted. */
  lemma NothingInvented(states: seq<State>, trace: seq<Action>, capacity: nat, i: nat)
    requires Behaves(states, trace, capacity) && i <= |trace|
    ensures Bytes(states[i].gone) + states[i].queue == states[i].accepted
    ensures |states[i].queue| <= capacity
  {
    AlwaysInv(states, trace, capacity, i);
  }

  /** Within the capacity nothing is evicted: the write is taken whole. */
  lemma FitsWhole(s: seq<byte>, p: seq<byte>, capacity: nat)
    requires |s| + |p| <= capacity
    ensures WriteQueue(s, p, capacity) == Written(s + p, |p|)
  {
    var w := WriteQueue(s, p, capacity);
    WriteMeaning(s, p, capacity);
    if w.n == |p| {
      assert Boundary(s + p, 0);
      assert (s + p)[0..] == s + p;
    } else {
      var k := PendingIsSuffix(s + p[..w.n]);
      assert false;
    }
  }

  /** A waiting reader with room for a byte is never left with data present or the
      pipe closed. */
  lemma NeverStranded(states: seq<State>, trace: seq<Action>, capacity: nat, i: nat)
    requires Behaves(states, trace, capacity) && i <= |trace|
    requires states[i].reader.Waiting? && states[i].reader.len > 0
    ensures states[i].queue == [] && !states[i].closed
  {
    AlwaysInv(states, trace, capacity, i);
  }

  /** The documentation promises EOF once the writer has closed and the buffer is
      empty.  A pass returns EOF before the buffer is drained exactly when the pipe
      is closed and the reader's slice has length zero. */
  lemma EofBeforeDrainedIff(queue: seq<byte>, closed: bool, len: nat)
    ensures PassOf(queue, closed, len).Eof? && queue != [] <==> closed && len == 0 && queue != []
    ensures len > 0 ==> (PassOf(queue, closed, len).Eof? <==> closed && queue == [])
  {}

  /** With a slice of length zero a reader does wait beside data, and is told EOF beside data. */
  lemma EmptySliceMisreads() returns (states: seq<State>, trace: seq<Action>)
    ensures Behaves(states, trace, 4) && |trace| == 5
    ensures states[3].reader == Waiting(0) && states[3].queue != []
    ensures PassOf(states[4].queue, states[4].closed, states[4].reader.len).Eof? && states[4].queue != []
  {
    var s0 := State([], false, Idle, [], []);
    FitsWhole([], [65, NEWLINE], 4);
    hide WriteQueue;
    var s1 := Do(s0, DoWrite([65, NEWLINE]), 4);
    var s2 := Do(s1, StartRead(0), 4);
    var s3 := Do(s2, RunRead, 4);
    var s4 := Do(s3, DoClose, 4);
    var s5 := Do(s4, RunRead, 4);
    states, trace := [s0, s1, s2, s3, s4, s5], [DoWrite([65, NEWLINE]), StartRead(0), RunRead, DoClose, RunRead];
  }
}
