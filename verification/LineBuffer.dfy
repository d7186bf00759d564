/** The ring buffer of lines (internal/bufiox/linebuffer.go), refined to a plain byte queue. */
module LineBuffers {

  newtype byte = i: int | 0 <= i < 256

  const NEWLINE: byte := 10

  // ----- the byte queue -----

  /** Where the first line ends, newline included; 0 when no newline is there. */
  function LineEnd(s: seq<byte>): (n: nat)
    ensures n <= |s|
  {
    if s == [] then 0
    else if s[0] == NEWLINE then 1
    else
      var rest := LineEnd(s[1..]);
      if rest == 0 then 0 else rest + 1
  }

  ghost predicate FirstNewline(s: seq<byte>, n: nat) {
    && n <= |s|
    && (n == 0 ==> forall i :: 0 <= i < |s| ==> s[i] != NEWLINE)
    && (n > 0 ==> s[n - 1] == NEWLINE && forall i :: 0 <= i < n - 1 ==> s[i] != NEWLINE)
  }

  lemma {:induction false} LineEndIs(s: seq<byte>, n: nat)
    requires FirstNewline(s, n)
    ensures LineEnd(s) == n
  {
    if s != [] && s[0] != NEWLINE {
      LineEndIs(s[1..], if n == 0 then 0 else n - 1);
    }
  }

  lemma {:induction false} LineEndFirst(s: seq<byte>)
    ensures FirstNewline(s, LineEnd(s))
  {
    if s != [] && s[0] != NEWLINE {
      LineEndFirst(s[1..]);
      assert forall i :: 1 <= i < |s| ==> s[i] == s[1..][i - 1];
    }
  }

  /** The lengths of the complete lines. */
  function Lengths(s: seq<byte>): seq<nat>
    decreases |s|
  {
    var n := LineEnd(s);
    if n == 0 then [] else [n] + Lengths(s[n..])
  }

  /** What follows the last newline. */
  function Pending(s: seq<byte>): seq<byte>
    decreases |s|
  {
    var n := LineEnd(s);
    if n == 0 then s else Pending(s[n..])
  }

  function Sum(ns: seq<nat>): nat {
    if ns == [] then 0 else ns[0] + Sum(ns[1..])
  }

  /** A write's next piece: up to and including a newline, or all that is left. */
  function Segment(p: seq<byte>): (n: nat)
    requires p != []
    ensures 0 < n <= |p|
  {
    var n := LineEnd(p);
    if n == 0 then |p| else n
  }

  /** Evict the oldest complete line while `need` more bytes do not fit. */
  function Evict(s: seq<byte>, need: nat, capacity: nat): seq<byte>
    decreases |s|
  {
    if |s| + need <= capacity || LineEnd(s) == 0 then s else Evict(s[LineEnd(s)..], need, capacity)
  }

  datatype Written = Written(queue: seq<byte>, n: nat)

  /** Write on the queue: piece by piece, stopping at the first that cannot be made to fit. */
  function WriteQueue(s: seq<byte>, p: seq<byte>, capacity: nat): (w: Written)
    ensures w.n <= |p|
    decreases |p|
  {
    if p == [] then Written(s, 0)
    else
      var k := Segment(p);
      var room := Evict(s, k, capacity);
      if |room| + k > capacity then Written(room, 0)
      else
        var w := WriteQueue(room + p[..k], p[k..], capacity);
        Written(w.queue, k + w.n)
  }

  // ----- facts about the queue -----

  lemma LineEndAppend(s: seq<byte>, t: seq<byte>)
    requires LineEnd(s) > 0
    ensures LineEnd(s + t) == LineEnd(s)
  {
    LineEndFirst(s);
    LineEndIs(s + t, LineEnd(s));
  }

  /** A complete line at the front. */
  lemma OneLine(s: seq<byte>)
    requires LineEnd(s) > 0
    ensures Lengths(s) == [LineEnd(s)] + Lengths(s[LineEnd(s)..]) && Pending(s) == Pending(s[LineEnd(s)..])
  {
  }

  lemma NoLine(s: seq<byte>)
    requires LineEnd(s) == 0
    ensures Lengths(s) == [] && Pending(s) == s
  {
  }

  lemma {:induction false} SumLengths(s: seq<byte>)
    ensures Sum(Lengths(s)) + |Pending(s)| == |s|
    decreases |s|
  {
    var n := LineEnd(s);
    if n > 0 {
      SumLengths(s[n..]);
      assert Lengths(s)[1..] == Lengths(s[n..]);
    }
  }

  /** A piece of a write: no newline but, perhaps, its last byte. */
  ghost predicate Piece(piece: seq<byte>) {
    piece != [] && (LineEnd(piece) == 0 || LineEnd(piece) == |piece|)
  }

  lemma PieceAfterPending(s: seq<byte>, piece: seq<byte>)
    requires LineEnd(s) == 0 && Piece(piece)
    ensures LineEnd(s + piece) == if LineEnd(piece) == 0 then 0 else |s| + |piece|
  {
    LineEndFirst(s);
    LineEndFirst(piece);
    LineEndIs(s + piece, if LineEnd(piece) == 0 then 0 else |s| + |piece|);
  }

  /** Appending a piece completes the unfinished line or lengthens it. */
  lemma {:induction false} AppendPiece(s: seq<byte>, piece: seq<byte>)
    requires Piece(piece)
    ensures LineEnd(piece) == 0 ==> Lengths(s + piece) == Lengths(s) && Pending(s + piece) == Pending(s) + piece
    ensures LineEnd(piece) > 0 ==> Lengths(s + piece) == Lengths(s) + [|Pending(s)| + |piece|]
                                   && Pending(s + piece) == []
    decreases |s|
  {
    hide Lengths, Pending, LineEnd;
    var n := LineEnd(s);
    if n > 0 {
      LineEndAppend(s, piece);
      assert (s + piece)[n..] == s[n..] + piece;
      OneLine(s);
      OneLine(s + piece);
      AppendPiece(s[n..], piece);
    } else {
      PieceAfterPending(s, piece);
      NoLine(s);
      if LineEnd(piece) > 0 {
        OneLine(s + piece);
        assert (s + piece)[|s + piece|..] == [];
        LineEndFirst([]);
        NoLine([]);
      } else {
        NoLine(s + piece);
      }
    }
  }

  /** The line lengths after taking k bytes off the front. */
  function Consume(ns: seq<nat>, k: nat): seq<nat> {
    if k == 0 || ns == [] then ns
    else if ns[0] <= k then Consume(ns[1..], k - ns[0])
    else ns[0 := ns[0] - k]
  }

  lemma DropInLine(s: seq<byte>, k: nat)
    requires k < LineEnd(s)
    ensures LineEnd(s[k..]) == LineEnd(s) - k && s[k..][LineEnd(s) - k..] == s[LineEnd(s)..]
  {
    var n := LineEnd(s);
    LineEndFirst(s);
    assert s[k..][n - k - 1] == s[n - 1];
    LineEndIs(s[k..], n - k);
  }

  lemma DropInPending(s: seq<byte>, k: nat)
    requires k <= |s| && LineEnd(s) == 0
    ensures LineEnd(s[k..]) == 0
  {
    LineEndFirst(s);
    LineEndIs(s[k..], 0);
  }

  lemma {:induction false} ConsumeIsDrop(s: seq<byte>, k: nat)
    requires k <= |s|
    ensures Lengths(s[k..]) == Consume(Lengths(s), k)
    ensures |Pending(s[k..])| == if k <= Sum(Lengths(s)) then |Pending(s)| else |s| - k
    decreases |s|
  {
    hide Lengths, Pending, LineEnd;
    var n := LineEnd(s);
    if k == 0 {
      assert s[0..] == s;
    } else if n == 0 {
      DropInPending(s, k);
      NoLine(s);
      NoLine(s[k..]);
    } else if k < n {
      DropInLine(s, k);
      OneLine(s);
      OneLine(s[k..]);
    } else {
      OneLine(s);
      assert s[n..][k - n..] == s[k..];
      ConsumeIsDrop(s[n..], k - n);
      assert ([n] + Lengths(s[n..]))[1..] == Lengths(s[n..]);
    }
  }

  // ----- what a write does, without the loop -----

  /** k is the start of a line of s: 0, or just after a newline. */
  ghost predicate Boundary(s: seq<byte>, k: nat) {
    k <= |s| && (k == 0 || s[k - 1] == NEWLINE)
  }

  /** t is s without as few of its oldest complete lines as bring it within capacity. */
  ghost predicate DropsLeast(s: seq<byte>, t: seq<byte>, capacity: nat) {
    exists k: nat :: k <= |s| && t == s[k..] && Boundary(s, k) && |t| <= capacity
      && forall j: nat :: j < k && Boundary(s, j) ==> |s| - j > capacity
  }

  lemma {:induction false} EvictDrops(s: seq<byte>, need: nat, capacity: nat) returns (k: nat)
    ensures k <= |s| && Evict(s, need, capacity) == s[k..] && Boundary(s, k)
    ensures forall j: nat :: j < k && Boundary(s, j) ==> |s| - j + need > capacity
    ensures |s| - k + need > capacity ==> s[k..] == Pending(s)
    ensures Pending(s[k..]) == Pending(s)
    decreases |s|
  {
    var n := LineEnd(s);
    if |s| + need <= capacity || n == 0 {
      k := 0;
      assert s[0..] == s;
    } else {
      LineEndFirst(s);
      var k' := EvictDrops(s[n..], need, capacity);
      k := n + k';
      assert s[n..][k'..] == s[k..];
      if k' > 0 { assert s[n..][k' - 1] == s[k - 1]; }
      forall j: nat | j < k && Boundary(s, j) ensures |s| - j + need > capacity {
        if j >= n {
          if j > n { assert s[n..][j - n - 1] == s[j - 1]; }
          assert Boundary(s[n..], j - n);
        }
      }
    }
  }

  /** A piece is accepted exactly when it fits beside the unfinished line. */
  lemma AcceptedIff(s: seq<byte>, p: seq<byte>, capacity: nat)
    requires |s| <= capacity && p != []
    ensures WriteQueue(s, p, capacity).n > 0 <==> |Pending(s)| + Segment(p) <= capacity
  {
    var k := EvictDrops(s, Segment(p), capacity);
    SumLengths(s[k..]);
  }

  /** What a write of p onto s that took n bytes may leave. */
  ghost predicate WriteLeaves(s: seq<byte>, p: seq<byte>, capacity: nat, w: Written) {
    && w.n <= |p|
    && (w.n == |p| ==> DropsLeast(s + p, w.queue, capacity))
    && (w.n < |p| ==> LeavesPending(s, p, capacity, w))
  }

  ghost predicate LeavesPending(s: seq<byte>, p: seq<byte>, capacity: nat, w: Written)
    requires w.n < |p|
  {
    && w.queue == Pending(s + p[..w.n])
    && |w.queue| + Segment(p[w.n..]) > capacity
    && (w.n > 0 ==> p[w.n - 1] == NEWLINE)
  }

  /** All the bytes a write accepts are queued after the ones before, dropping as
      few of the oldest complete lines as make room; a write cut short leaves only
      the unfinished line, and stops at a piece that does not fit beside it. */
  lemma {:induction false} WriteMeaning(s: seq<byte>, p: seq<byte>, capacity: nat)
    requires |s| <= capacity
    ensures WriteLeaves(s, p, capacity, WriteQueue(s, p, capacity))
    decreases |p|
  {
    if p == [] {
      assert s + p == s && s[0..] == s && Boundary(s, 0);
    } else {
      var k := Segment(p);
      var e := EvictDrops(s, k, capacity);
      var room := Evict(s, k, capacity);
      if |room| + k > capacity {
        assert p[..0] == [] && s + [] == s && p[0..] == p;
      } else {
        WriteMeaning(room + p[..k], p[k..], capacity);
        WriteStep(s, p, k, e, capacity, WriteQueue(room + p[..k], p[k..], capacity));
      }
    }
  }

  lemma WriteStep(s: seq<byte>, p: seq<byte>, k: nat, e: nat, capacity: nat, rest: Written)
    requires p != [] && k == Segment(p) && e <= |s| && Boundary(s, e)
    requires forall j: nat :: j < e && Boundary(s, j) ==> |s| - j + k > capacity
    requires WriteLeaves(s[e..] + p[..k], p[k..], capacity, rest)
    ensures WriteLeaves(s, p, capacity, Written(rest.queue, k + rest.n))
  {
    var n := k + rest.n;
    Regroup(s, p, k, e, rest.n);
    if n == |p| {
      assert p[..n] == p && p[k..][..rest.n] == p[k..];
      WriteDropsLeast(s, p, k, e, rest.queue, capacity);
    } else {
      ShortStep(s, p, k, e, capacity, rest);
    }
  }

  lemma ShortStep(s: seq<byte>, p: seq<byte>, k: nat, e: nat, capacity: nat, rest: Written)
    requires p != [] && k == Segment(p) && e <= |s| && Boundary(s, e) && k + rest.n < |p|
    requires LeavesPending(s[e..] + p[..k], p[k..], capacity, rest)
    ensures LeavesPending(s, p, capacity, Written(rest.queue, k + rest.n))
  {
    Regroup(s, p, k, e, rest.n);
    assert Boundary(s + p[..k + rest.n], e);
    PendingOfSuffix(s + p[..k + rest.n], e);
    LineEndFirst(p);
  }

  lemma Regroup(s: seq<byte>, p: seq<byte>, k: nat, e: nat, m: nat)
    requires e <= |s| && k + m <= |p|
    ensures s[e..] + p[..k] + p[k..][..m] == (s + p[..k + m])[e..]
    ensures p[k..][m..] == p[k + m..]
    ensures m > 0 ==> p[k..][m - 1] == p[k + m - 1]
    ensures e > 0 ==> (s + p[..k + m])[e - 1] == s[e - 1]
  {}

  /** Dropping whole lines leaves the unfinished one. */
  lemma {:induction false} PendingOfSuffix(s: seq<byte>, k: nat)
    requires Boundary(s, k)
    ensures Pending(s[k..]) == Pending(s)
    decreases |s|
  {
    var n := LineEnd(s);
    if k == 0 {
      assert s[0..] == s;
    } else {
      LineEndFirst(s);
      assert s[n..][k - n..] == s[k..];
      if k > n { assert s[n..][k - n - 1] == s[k - 1]; }
      PendingOfSuffix(s[n..], k - n);
    }
  }

  lemma WriteDropsLeast(s: seq<byte>, p: seq<byte>, k: nat, e: nat, queue: seq<byte>, capacity: nat)
    requires p != [] && k == Segment(p) && e <= |s| && Boundary(s, e)
    requires forall j: nat :: j < e && Boundary(s, j) ==> |s| - j + k > capacity
    requires DropsLeast((s + p)[e..], queue, capacity)
    ensures DropsLeast(s + p, queue, capacity)
  {
    var all, tail := s + p, (s + p)[e..];
    var d: nat :| d <= |tail| && queue == tail[d..] && Boundary(tail, d) && |queue| <= capacity
      && forall j: nat :: j < d && Boundary(tail, j) ==> |tail| - j > capacity;
    assert tail[d..] == all[e + d..];
    if d > 0 { assert tail[d - 1] == all[e + d - 1]; }
    forall j: nat | j < e + d && Boundary(all, j) ensures |all| - j > capacity {
      if j < e {
        assert Boundary(s, j);
      } else {
        BoundaryOfTail(all, e, j);
        assert Boundary(tail, j - e);
      }
    }
  }

  lemma BoundaryOfTail(s: seq<byte>, e: nat, j: nat)
    requires e <= j && Boundary(s, j)
    ensures Boundary(s[e..], j - e)
  {
    if j > e { assert s[e..][j - e - 1] == s[j - 1]; }
  }

  // ----- the ring -----

  /** x % capacity, for an x that goes round at most once. */
  function Wrap(x: nat, capacity: nat): nat {
    if x < capacity then x else x - capacity
  }

  lemma ModWraps(x: nat, capacity: nat)
    requires 0 < capacity && x < 2 * capacity
    ensures x % capacity == Wrap(x, capacity)
  {
    if x >= capacity {
      assert x == capacity + (x - capacity);
    }
  }

  /** The bytes from head on, wrapping. */
  function Ring(buf: seq<byte>, head: nat, size: nat): (s: seq<byte>)
    requires head < |buf| && size <= |buf|
    ensures |s| == size
  {
    seq(size, i requires 0 <= i < size => buf[Wrap(head + i, |buf|)])
  }

  lemma RingDrop(buf: seq<byte>, head: nat, size: nat, k: nat)
    requires head < |buf| && k <= size <= |buf|
    ensures Wrap(head + k, |buf|) < |buf| && Ring(buf, Wrap(head + k, |buf|), size - k) == Ring(buf, head, size)[k..]
    ensures Wrap(Wrap(head + k, |buf|) + (size - k), |buf|) == Wrap(head + size, |buf|)
  {
    var a, b := Ring(buf, Wrap(head + k, |buf|), size - k), Ring(buf, head, size);
    forall i | 0 <= i < size - k ensures a[i] == b[k..][i] {
      assert a[i] == buf[Wrap(Wrap(head + k, |buf|) + i, |buf|)];
      assert b[k..][i] == b[k + i] == buf[Wrap(head + (k + i), |buf|)];
    }
  }

  class LineBuffer {
    const buf: array<byte>
    const capacity: nat
    var size: nat
    var head: nat
    var tail: nat
    var lineLengths: seq<nat>
    var pendingLength: nat

    ghost predicate Valid()
      reads this, buf
    {
      && 0 < capacity == buf.Length
      && size <= capacity && head < capacity && tail == Wrap(head + size, capacity)
      && lineLengths == Lengths(Contents()) && pendingLength == |Pending(Contents())|
    }

    /** The queue the buffer stands for. */
    ghost function Contents(): (s: seq<byte>)
      requires 0 < capacity == buf.Length && size <= capacity && head < capacity
      reads this, buf
      ensures |s| == size
    {
      Ring(buf[..], head, size)
    }

    /** NewLineBuffer; a capacity that is not positive panics. */
    constructor (capacity: nat)
      requires capacity > 0
      ensures Valid() && fresh(buf) && this.capacity == capacity && Contents() == []
    {
      this.capacity := capacity;
      buf := new byte[capacity](_ => 0);
      size, head, tail, pendingLength := 0, 0, 0, 0;
      lineLengths := [];
    }

    method EvictOldestLine() returns (evicted: bool)
      requires Valid()
      modifies this`size, this`head, this`lineLengths
      ensures Valid()
      ensures evicted <==> LineEnd(old(Contents())) > 0
      ensures Contents() == old(Contents())[LineEnd(old(Contents()))..]
    {
      if |lineLengths| == 0 {
        return false;
      }
      ghost var before := Contents();
      var lineLen := lineLengths[0];
      lineLengths := lineLengths[1..];
      assert before != [] && lineLen == LineEnd(before);
      RingDrop(buf[..], head, size, lineLen);
      ModWraps(head + lineLen, capacity);
      head := (head + lineLen) % capacity;
      size := size - lineLen;
      evicted := true;
    }

    method WriteToBuffer(data: seq<byte>) returns (n: nat)
      requires 0 < capacity == buf.Length && head < capacity && tail == Wrap(head + size, capacity)
      requires size + |data| <= capacity
      modifies this`size, this`tail, buf
      ensures n == |data| && size == old(size) + n && tail == Wrap(head + size, capacity)
      ensures Contents() == old(Contents()) + data
    {
      n := |data|;
      if n == 0 {
        return;
      }
      if tail + n <= capacity {
        CopyIn(tail, data);
      } else {
        var firstPart := capacity - tail;
        CopyIn(tail, data[..firstPart]);
        CopyIn(0, data[firstPart..]);
      }
      ModWraps(tail + n, capacity);
      ghost var before, after := old(Contents()), Ring(buf[..], head, size + n);
      forall i | 0 <= i < size + n ensures after[i] == (before + data)[i] {
        assert after[i] == buf[Wrap(head + i, capacity)];
        if i < size {
          assert before[i] == old(buf[Wrap(head + i, capacity)]);
        }
      }
      tail := (tail + n) % capacity;
      size := size + n;
    }

    method CopyIn(at: nat, data: seq<byte>)
      requires at + |data| <= buf.Length
      modifies buf
      ensures forall j :: 0 <= j < buf.Length ==> buf[j] == if at <= j < at + |data| then data[j - at] else old(buf[j])
    {
      for i := 0 to |data|
        invariant forall j :: 0 <= j < buf.Length ==> buf[j] == if at <= j < at + i then data[j - at] else old(buf[j])
      {
        buf[at + i] := data[i];
      }
    }

    /** Write: split at newlines, evicting whole lines to make room.  An error is
        reported only when nothing was written. */
    method Write(p: seq<byte>) returns (n: nat, failed: bool)
      requires Valid()
      modifies this, buf
      ensures Valid()
      ensures Written(Contents(), n) == WriteQueue(old(Contents()), p, capacity)
      ensures failed <==> n == 0 && p != []
    {
      if |p| == 0 {
        return 0, false;
      }
      var totalWritten := 0;
      var data := p;
      ghost var want := WriteQueue(Contents(), p, capacity);
      while |data| > 0
        invariant Valid()
        invariant totalWritten + |data| == |p|
        invariant var w := WriteQueue(Contents(), data, capacity);
                  w.queue == want.queue && totalWritten + w.n == want.n
        decreases |data|
      {
        var newlineEnd := LineEnd(data);
        var toWrite;
        ghost var before, whole := Contents(), data;
        if newlineEnd > 0 {
          toWrite := data[..newlineEnd];
          data := data[newlineEnd..];
        } else {
          toWrite := data;
          data := [];
        }
        assert toWrite == whole[..Segment(whole)] && data == whole[Segment(whole)..];
        var bytesNeeded := |toWrite|;
        while size + bytesNeeded > capacity
          invariant Valid()
          invariant Evict(Contents(), bytesNeeded, capacity) == Evict(before, bytesNeeded, capacity)
          decreases size
        {
          var evicted := EvictOldestLine();
          if !evicted {
            assert Contents() == Evict(before, bytesNeeded, capacity);
            if totalWritten == 0 {
              return 0, true;
            }
            return totalWritten, false;
          }
        }
        SegmentIsPiece(whole);
        Append(toWrite);
        totalWritten := totalWritten + |toWrite|;
      }
      n, failed := totalWritten, false;
    }

    /** writeToBuffer and the line tracking after it. */
    method Append(toWrite: seq<byte>)
      requires Valid() && size + |toWrite| <= capacity
      requires Piece(toWrite)
      modifies this, buf
      ensures Valid() && Contents() == old(Contents()) + toWrite
    {
      AppendPiece(Contents(), toWrite);
      var written := WriteToBuffer(toWrite);
      if LineEnd(toWrite) > 0 {
        if pendingLength > 0 {
          lineLengths := lineLengths + [pendingLength + written];
          pendingLength := 0;
        } else {
          lineLengths := lineLengths + [written];
        }
      } else {
        pendingLength := pendingLength + written;
      }
    }

    /** Read: the front of the queue, as much as fits in p; no error when empty. */
    method Read(p: array<byte>) returns (n: nat)
      requires Valid() && p != buf
      modifies this, p
      ensures Valid()
      ensures n == if p.Length <= |old(Contents())| then p.Length else |old(Contents())|
      ensures p[..n] == old(Contents())[..n] && p[n..] == old(p[..])[n..]
      ensures Contents() == old(Contents())[n..]
    {
      if size == 0 {
        return 0;
      }
      n := if p.Length <= size then p.Length else size;
      ReadFront(p, n);
      hide Lengths, Pending, Ring;
      Advance(n);
    }

    /** Takes what was read off the front, line lengths included. */
    method Advance(n: nat)
      requires Valid() && n <= size
      modifies this
      ensures Valid() && Contents() == old(Contents())[n..]
    {
      ghost var front := Contents();
      RingDrop(buf[..], head, size, n);
      ModWraps(head + n, capacity);
      ConsumeIsDrop(front, n);
      SumLengths(front);
      hide Lengths, Pending, Sum, Consume, Ring;
      head := (head + n) % capacity;
      size := size - n;
      UpdateLineLengthsAfterRead(n);
    }

    /** Copies the front of the queue, in two parts when it wraps. */
    method ReadFront(p: array<byte>, n: nat)
      requires Valid() && p != buf && n <= size && n <= p.Length
      modifies p
      ensures p[..n] == Contents()[..n] && p[n..] == old(p[n..])
    {
      if head + n <= capacity {
        CopyOut(p, 0, head, n);
      } else {
        var firstPart := capacity - head;
        CopyOut(p, 0, head, firstPart);
        CopyOut(p, firstPart, 0, n - firstPart);
      }
      ghost var front := Contents();
      forall i | 0 <= i < n ensures p[i] == front[i] {
        assert front[i] == buf[Wrap(head + i, capacity)];
      }
    }

    method CopyOut(p: array<byte>, to: nat, from: nat, n: nat)
      requires to + n <= p.Length && from + n <= buf.Length && p != buf
      modifies p
      ensures forall j :: 0 <= j < p.Length ==> p[j] == if to <= j < to + n then buf[from + j - to] else old(p[j])
    {
      for i := 0 to n
        invariant forall j :: 0 <= j < p.Length ==> p[j] == if to <= j < to + i then buf[from + j - to] else old(p[j])
      {
        p[to + i] := buf[from + i];
      }
    }

    method UpdateLineLengthsAfterRead(bytesRead: nat)
      requires bytesRead <= Sum(lineLengths) + pendingLength
      modifies this`lineLengths, this`pendingLength
      ensures lineLengths == Consume(old(lineLengths), bytesRead)
      ensures pendingLength == if bytesRead <= Sum(old(lineLengths)) then old(pendingLength)
                               else Sum(old(lineLengths)) + old(pendingLength) - bytesRead
    {
      var remaining: nat := bytesRead;
      while remaining > 0 && |lineLengths| > 0
        invariant pendingLength == old(pendingLength)
        invariant Consume(lineLengths, remaining) == Consume(old(lineLengths), bytesRead)
        invariant remaining > 0 ==> remaining - Sum(lineLengths) == bytesRead - Sum(old(lineLengths))
        invariant remaining == 0 ==> bytesRead <= Sum(old(lineLengths))
        decreases |lineLengths|, remaining
      {
        if lineLengths[0] <= remaining {
          remaining := remaining - lineLengths[0];
          lineLengths := lineLengths[1..];
        } else {
          lineLengths := lineLengths[0 := lineLengths[0] - remaining];
          remaining := 0;
        }
      }
      if remaining > 0 && pendingLength > 0 {
        if pendingLength <= remaining {
          pendingLength := 0;
        } else {
          pendingLength := pendingLength - remaining;
        }
      }
    }

    method Len() returns (n: nat)
      requires Valid()
      ensures n == |Contents()|
    {
      n := size;
    }

    method Clear()
      requires Valid()
      modifies this
      ensures Valid() && Contents() == []
    {
      size, head, tail, pendingLength := 0, 0, 0, 0;
      lineLengths := [];
    }
  }

  lemma SegmentIsPiece(p: seq<byte>)
    requires p != []
    ensures Piece(p[..Segment(p)])
  {
    LineEndFirst(p);
    if LineEnd(p) > 0 {
      LineEndIs(p[..LineEnd(p)], LineEnd(p));
    } else {
      assert p[..|p|] == p;
    }
  }
}
