/** The word-packed bitmap (internal/bitmap/bitmap.go). */
module Bitmaps {
  import opened BitWords

  // ----- a run of words as a set -----

  predicate In(w: seq<bv64>, i: int) {
    0 <= i < 64 * |w| && Bit(w[i / 64], i % 64)
  }

  ghost function Members(w: seq<bv64>): set<int> {
    set i | 0 <= i < 64 * |w| && In(w, i)
  }

  predicate InRange(i: int, size: int) { 0 <= i < size }

  ghost function Range(size: int): set<int> {
    set i | 0 <= i < size && InRange(i, size)
  }

  /** Every bit past the size is zero, and the size fits. */
  ghost predicate Clean(w: seq<bv64>, size: int) {
    size <= 64 * |w| && forall i :: In(w, i) ==> i < size
  }

  lemma IndexSplits(i: int, n: nat)
    requires 0 <= i < 64 * n
    ensures 0 <= i / 64 < n && 0 <= i % 64 < 64
  {
  }

  /** Setting or clearing one bit of one word. */
  lemma OneWord(w: seq<bv64>, i: int, v: bool)
    requires 0 <= i < 64 * |w|
    ensures var word := w[i / 64];
            var w' := w[i / 64 := if v then Or(word, Mask(i % 64)) else AndNot(word, Mask(i % 64))];
            Members(w') == if v then Members(w) + {i} else Members(w) - {i}
  {
    var word := w[i / 64];
    var w' := w[i / 64 := if v then Or(word, Mask(i % 64)) else AndNot(word, Mask(i % 64))];
    hide Or, AndNot, Mask, Bit;
    forall k | 0 <= k < 64 * |w|
      ensures In(w', k) <==> if v then In(w, k) || k == i else In(w, k) && k != i
    {
      IndexSplits(k, |w|);
      if k / 64 == i / 64 {
        assert k == i <==> k % 64 == i % 64;
        if v { SetBit(word, i % 64, k % 64); } else { ClearBit(word, i % 64, k % 64); }
      }
    }
  }

  datatype Op = OpOr | OpAnd | OpXor

  function Apply(op: Op, a: bv64, b: bv64): bv64 {
    match op
    case OpOr => Or(a, b)
    case OpAnd => And(a, b)
    case OpXor => Xor(a, b)
  }

  ghost function Combined(op: Op, a: set<int>, b: set<int>): set<int> {
    match op
    case OpOr => a + b
    case OpAnd => a * b
    case OpXor => (a - b) + (b - a)
  }

  lemma WordByWord(op: Op, a: seq<bv64>, b: seq<bv64>, r: seq<bv64>)
    requires |a| == |b| == |r| && forall k :: 0 <= k < |a| ==> r[k] == Apply(op, a[k], b[k])
    ensures Members(r) == Combined(op, Members(a), Members(b))
  {
    hide Or, And, Xor, Bit;
    forall i | 0 <= i < 64 * |a|
      ensures In(r, i) <==> match op
                            case OpOr => In(a, i) || In(b, i)
                            case OpAnd => In(a, i) && In(b, i)
                            case OpXor => In(a, i) != In(b, i)
    {
      IndexSplits(i, |a|);
      CombinedBits(a[i / 64], b[i / 64], i % 64);
    }
  }

  lemma CombinedClean(op: Op, a: seq<bv64>, b: seq<bv64>, r: seq<bv64>, size: int)
    requires |a| == |b| == |r| && Clean(a, size) && Clean(b, size)
    requires Members(r) == Combined(op, Members(a), Members(b))
    ensures Clean(r, size)
  {
    MembersClean(a, size);
    MembersClean(b, size);
    MembersClean(r, size);
  }

  lemma Inverted(a: seq<bv64>, r: seq<bv64>, size: int)
    requires |a| == |r| && (if size < 0 then a == [] else size <= 64 * |a| < size + 64)
    requires forall k :: 0 <= k < |a| && 64 * k + 64 <= size ==> r[k] == Not(a[k])
    requires a != [] && size % 64 != 0 ==> r[|r| - 1] == And(Not(a[|a| - 1]), Less1(Mask(size % 64)))
    ensures Members(r) == Range(size) - Members(a)
    ensures Clean(r, size)
  {
    hide Not, And, Less1, Mask, Bit;
    forall i | 0 <= i < 64 * |a|
      ensures In(r, i) <==> i < size && !In(a, i)
    {
      IndexSplits(i, |a|);
      var k := i / 64;
      CombinedBits(a[k], a[k], i % 64);
      if 64 * k + 64 > size {
        assert k == |a| - 1 && size / 64 == k;
        LowBits(size % 64, i % 64);
        CombinedBits(Not(a[k]), Less1(Mask(size % 64)), i % 64);
      }
    }
  }

  // ----- counting -----

  function CountWords(w: seq<bv64>): nat {
    if w == [] then 0 else CountWords(w[..|w| - 1]) + Ones(w[|w| - 1], 64)
  }

  ghost function Below(w: seq<bv64>, n: nat): set<int> {
    set i | 0 <= i < n && In(w, i)
  }

  lemma {:induction false} CountInWord(w: seq<bv64>, base: nat, j: nat)
    requires base < |w| && j <= 64
    ensures |Below(w, 64 * base + j)| == |Below(w, 64 * base)| + Ones(w[base], j)
  {
    if j > 0 {
      CountInWord(w, base, j - 1);
      BelowOneMore(w, 64 * base + (j - 1));
      IndexParts(base, j - 1);
      hide Below, Bit;
    }
  }

  lemma IndexParts(base: nat, j: nat)
    requires j < 64
    ensures (64 * base + j) / 64 == base && (64 * base + j) % 64 == j
  {
  }

  lemma BelowOneMore(w: seq<bv64>, i: nat)
    ensures |Below(w, i + 1)| == |Below(w, i)| + if In(w, i) then 1 else 0
  {
    hide In;
    assert Below(w, i + 1) == if In(w, i) then Below(w, i) + {i} else Below(w, i);
  }

  lemma {:induction false} CountIsBelow(w: seq<bv64>)
    ensures CountWords(w) == |Below(w, 64 * |w|)|
  {
    if w == [] {
      assert Below(w, 0) == {};
    } else {
      var n := |w| - 1;
      CountIsBelow(w[..n]);
      CountInWord(w, n, 64);
      forall i | 0 <= i < 64 * n ensures In(w[..n], i) == In(w, i) { IndexSplits(i, n); }
      assert Below(w[..n], 64 * n) == Below(w, 64 * n);
    }
  }

  /** The population count of the words is the number of members. */
  lemma CountIsCardinality(w: seq<bv64>)
    ensures CountWords(w) == |Members(w)|
  {
    CountIsBelow(w);
    assert Below(w, 64 * |w|) == Members(w);
  }

  // ----- the bitmap -----

  /** Words needed for size bits: Go's (size+63)/64, which rounds toward zero. */
  function WordsFor(size: int): nat
    requires size > -127
  {
    if size + 63 < 0 then 0 else (size + 63) / 64
  }

  /** A bitmap's bits are the slice mem[lo..lo+len]; bitmaps of one batch share mem. */
  class Bitmap {
    const mem: array<bv64>
    const lo: nat
    const len: nat
    const size: int

    ghost predicate Valid() reads this, mem {
      && size > -127
      && len == WordsFor(size)
      && lo + len <= mem.Length
      && Clean(Words(), size)
    }

    ghost function Words(): seq<bv64>
      reads this, mem
    {
      if lo + len <= mem.Length then mem[lo..lo + len] else []
    }

    /** The set this bitmap stands for. */
    ghost function Contents(): set<int>
      reads this, mem
    {
      Members(Words())
    }

    /** Nothing outside this bitmap's own words differs. */
    twostate predicate OnlyOwnWords()
      reads mem
    {
      forall i :: 0 <= i < mem.Length && !(lo <= i < lo + len) ==> mem[i] == old(mem[i])
    }

    /** Both from one batch on disjoint words, or on different memory, or the same words. */
    ghost predicate Compatible(other: Bitmap) {
      mem != other.mem || lo + len <= other.lo || other.lo + other.len <= lo || (lo == other.lo && len == other.len)
    }

    predicate IsWindow(mem: array<bv64>, lo: nat, len: nat, size: int) {
      this.mem == mem && this.lo == lo && this.len == len && this.size == size
    }

    constructor Over(mem: array<bv64>, lo: nat, size: int)
      requires size > -127 && lo + WordsFor(size) <= mem.Length
      ensures IsWindow(mem, lo, WordsFor(size), size)
    {
      this.mem := mem;
      this.lo := lo;
      this.len := WordsFor(size);
      this.size := size;
    }

    method Set(index: int)
      requires Valid()
      modifies mem
      ensures Valid() && OnlyOwnWords()
      ensures Contents() == old(Contents()) + (if 0 <= index < size then {index} else {})
    {
      if index < 0 || index >= size { return; }
      ghost var w := Words();
      mem[lo + index / 64] := Or(mem[lo + index / 64], Mask(index % 64));
      OneWord(w, index, true);
      assert Words() == w[index / 64 := Or(w[index / 64], Mask(index % 64))];
      MembersClean(Words(), size);
      MembersClean(w, size);
    }

    method Clear(index: int)
      requires Valid()
      modifies mem
      ensures Valid() && OnlyOwnWords()
      ensures Contents() == old(Contents()) - {index}
    {
      ghost var w := Words();
      MembersClean(w, size);
      if index < 0 || index >= size { return; }
      mem[lo + index / 64] := AndNot(mem[lo + index / 64], Mask(index % 64));
      OneWord(w, index, false);
      assert Words() == w[index / 64 := AndNot(w[index / 64], Mask(index % 64))];
      MembersClean(Words(), size);
    }

    method Get(index: int) returns (r: bool)
      requires Valid()
      ensures r <==> index in Contents()
    {
      MembersClean(Words(), size);
      if index < 0 || index >= size { return false; }
      hide Has, Mask, Clean;
      assert Words()[index / 64] == mem[lo + index / 64];
      assert index in Contents() <==> In(Words(), index);
      return Has(mem[lo + index / 64], Mask(index % 64));
    }

    method Count() returns (n: nat)
      requires Valid()
      ensures n == |Contents()|
    {
      n := 0;
      for i := 0 to len
        invariant n == CountWords(Words()[..i])
      {
        assert Words()[..i + 1][..i] == Words()[..i];
        n := n + Ones(mem[lo + i], 64);
      }
      assert Words()[..len] == Words();
      CountIsCardinality(Words());
    }

    /** Or, And and Xor (bitmap.go:74-102) share everything but the operator. A size
        mismatch panics before anything changes: ok is false. */
    method Combine(op: Op, other: Bitmap) returns (ok: bool)
      requires Valid() && other.Valid() && Compatible(other)
      modifies mem
      ensures Valid() && OnlyOwnWords()
      ensures ok <==> size == other.size
      ensures Contents() == if ok then Combined(op, old(Contents()), old(other.Contents())) else old(Contents())
    {
      if size != other.size { return false; }
      ghost var a, b := Words(), other.Words();
      CombineWords(op, other);
      WordByWord(op, a, b, Words());
      CombinedClean(op, a, b, Words(), size);
      return true;
    }

    /** The loop of Or, And and Xor. */
    method CombineWords(op: Op, other: Bitmap)
      requires lo + len <= mem.Length && other.lo + other.len <= other.mem.Length
      requires Compatible(other) && len == other.len
      modifies mem
      ensures OnlyOwnWords()
      ensures forall k :: 0 <= k < len ==> Words()[k] == Apply(op, old(Words())[k], old(other.Words())[k])
    {
      hide Apply;
      ghost var a, b := Words(), other.Words();
      for i := 0 to len
        invariant OnlyOwnWords()
        invariant forall k :: 0 <= k < i ==> mem[lo + k] == Apply(op, a[k], b[k])
        invariant forall k :: i <= k < len ==> mem[lo + k] == a[k] && other.mem[other.lo + k] == b[k]
      {
        mem[lo + i] := Apply(op, mem[lo + i], other.mem[other.lo + i]);
      }
    }

    /** Not, bitmap.go:104-113. A negative size other than -64 makes the source index before its
        first word. */
    method Invert()
      requires Valid() && (size >= 0 || size == -64)
      modifies mem
      ensures Valid() && OnlyOwnWords()
      ensures Contents() == Range(size) - old(Contents())
    {
      hide Not, And, Less1, Mask, Clean, Members;
      ghost var a := Words();
      for i := 0 to len
        invariant OnlyOwnWords()
        invariant forall k :: 0 <= k < i ==> mem[lo + k] == Not(a[k])
        invariant forall k :: i <= k < len ==> mem[lo + k] == a[k]
      {
        mem[lo + i] := Not(mem[lo + i]);
      }
      if size % 64 != 0 {
        mem[lo + len - 1] := And(mem[lo + len - 1], Less1(Mask(size % 64)));
      }
      Inverted(a, Words(), size);
    }
  }

  lemma AllZero(w: seq<bv64>)
    requires forall k :: 0 <= k < |w| ==> w[k] == 0
    ensures Members(w) == {}
  {
    forall i | 0 <= i < 64 * |w| ensures !In(w, i) {
      IndexSplits(i, |w|);
      ZeroHasNoBits(i % 64);
    }
  }

  /** Clean words are those whose members are all below the size. */
  lemma MembersClean(w: seq<bv64>, size: int)
    requires size <= 64 * |w|
    ensures Clean(w, size) <==> forall i :: i in Members(w) ==> 0 <= i < size
  {
    assert forall i :: i in Members(w) <==> In(w, i);
  }

  /** NewBatch (bitmap.go:22-34): empty bitmaps side by side in one allocation. The
      source panics for a negative count unless no words are needed. */
  method NewBatch(size: int, count: int) returns (maps: seq<Bitmap>)
    requires size > -127 && (count >= 0 || size <= 0)
    ensures |maps| == if count < 0 then 0 else count
    ensures forall i :: 0 <= i < |maps| ==> fresh(maps[i]) && fresh(maps[i].mem) && maps[i].Valid()
                                            && maps[i].size == size && maps[i].Contents() == {}
    ensures forall i, j :: 0 <= i < j < |maps| ==> maps[i].lo + maps[i].len <= maps[j].lo && maps[i].mem == maps[j].mem
  {
    var n := WordsFor(size);
    var mem := new bv64[if count < 0 then 0 else count * n](_ => 0);
    maps := [];
    var i := 0;
    while i < count
      invariant |maps| == i && 0 <= i <= (if count < 0 then 0 else count)
      invariant forall k :: 0 <= k < mem.Length ==> mem[k] == 0
      invariant forall k :: 0 <= k < i ==> fresh(maps[k]) && maps[k].IsWindow(mem, k * n, n, size)
    {
      WindowFits(i, n, count);
      var b := new Bitmap.Over(mem, i * n, size);
      maps := maps + [b];
      i := i + 1;
    }
    forall k | 0 <= k < |maps| ensures maps[k].Valid() && maps[k].Contents() == {} {
      WindowFits(k, n, count);
      ZeroWindow(maps[k]);
    }
    forall a, b | 0 <= a < b < |maps| ensures maps[a].lo + maps[a].len <= maps[b].lo {
      WindowFits(a, n, b);
    }
  }

  /** New (bitmap.go:14-20). */
  method New(size: int) returns (b: Bitmap)
    requires size > -127
    ensures fresh(b) && fresh(b.mem) && b.Valid() && b.size == size && b.Contents() == {}
  {
    var mem := new bv64[WordsFor(size)](_ => 0);
    b := new Bitmap.Over(mem, 0, size);
    ZeroWindow(b);
  }

  lemma ZeroWindow(b: Bitmap)
    requires b.size > -127 && b.len == WordsFor(b.size) && b.lo + b.len <= b.mem.Length
    requires forall k :: 0 <= k < b.mem.Length ==> b.mem[k] == 0
    ensures b.Valid() && b.Contents() == {}
  {
    AllZero(b.Words());
    MembersClean(b.Words(), b.size);
  }

  lemma WindowFits(i: nat, n: nat, count: int)
    requires i < count
    ensures i * n + n <= count * n
  {
    assert (i + 1) * n <= count * n;
  }

  /** An update to one bitmap of a batch never changes another one. */
  twostate lemma OthersUntouched(b: Bitmap, other: Bitmap)
    requires b.OnlyOwnWords()
    requires b.mem == other.mem && (b.lo + b.len <= other.lo || other.lo + other.len <= b.lo)
    ensures other.Contents() == old(other.Contents())
    ensures old(other.Valid()) ==> other.Valid()
  {
    assert other.Words() == old(other.Words());
  }
}
