/** Bits of 64-bit words, and what the word operations of internal/bitmap/bitmap.go do to
    each bit. Facts about words alone are kept apart from those about masks. */
module BitWords {

  /** Go's `1 << n`: one, shifted left n times by one place. */
  function Mask(n: nat): bv64 {
    if n == 0 then 1 else Shl(Mask(n - 1))
  }

  predicate Bit(w: bv64, j: nat) {
    Has(w, Mask(j))
  }

  predicate Has(w: bv64, m: bv64) {
    w & m != 0
  }

  /** bits.OnesCount64: how many of the first n bits are set. */
  function Ones(w: bv64, n: nat): nat {
    if n == 0 then 0 else Ones(w, n - 1) + if Bit(w, n - 1) then 1 else 0
  }

  // ----- words alone -----

  const TOP: bv64 := 0x8000_0000_0000_0000

  predicate Apart(x: bv64, y: bv64) { x & y == 0 }

  predicate Single(x: bv64, m: bv64) { x & m == 0 || x & m == m }

  // The word operations by name, so that proofs about masks need not look inside them.
  function Shl(m: bv64): bv64 { m << 1 }
  function Half(x: bv64): bv64 { x >> 1 }
  function Less1(m: bv64): bv64 { m - 1 }
  function Or(a: bv64, b: bv64): bv64 { a | b }
  function And(a: bv64, b: bv64): bv64 { a & b }
  function AndNot(a: bv64, b: bv64): bv64 { a & !b }
  function Xor(a: bv64, b: bv64): bv64 { a ^ b }
  function Not(a: bv64): bv64 { !a }

  lemma EightShifts(m: bv64)
    ensures Shl(Shl(Shl(Shl(Shl(Shl(Shl(Shl(m)))))))) == m << 8
  {
  }

  lemma ShiftSingle(x: bv64, m: bv64)
    requires Single(Half(x), m)
    ensures Single(x, Shl(m))
    ensures Shl(m) != 0 ==> (Has(x, Shl(m)) <==> Has(Half(x), m))
  {
    ShiftParts(x, m);
    ShiftZero(Half(x) & m);
    hide Half, Shl;
  }

  lemma ShiftParts(x: bv64, m: bv64)
    ensures x & Shl(m) == Shl(Half(x) & m)
  {
  }

  lemma ShiftZero(x: bv64)
    ensures x == 0 ==> Shl(x) == 0
  {
  }

  lemma ShiftBoth(x: bv64, y: bv64)
    requires Apart(x, y)
    ensures Apart(Shl(x), Shl(y))
  {
  }

  lemma OddBit(x: bv64)
    ensures Single(x, 1)
    ensures Apart(1, Shl(x))
    ensures Has(Less1(Shl(x)), 1)
  {
  }

  lemma OrParts(a: bv64, b: bv64, m: bv64)
    ensures (a | b) & m == (a & m) | (b & m)
  {
  }

  lemma AndParts(a: bv64, b: bv64, m: bv64)
    ensures (a & b) & m == (a & m) & (b & m)
  {
  }

  lemma XorParts(a: bv64, b: bv64, m: bv64)
    ensures (a ^ b) & m == (a & m) ^ (b & m)
  {
  }

  lemma NotParts(a: bv64, m: bv64)
    ensures !a & m == (a & m) ^ m
  {
  }

  lemma AndNotParts(w: bv64, m: bv64, n: bv64)
    ensures (w & !m) & n == (w & n) ^ (w & (m & n))
  {
  }

  lemma OrCases(x: bv64, y: bv64)
    ensures x | y != 0 <==> x != 0 || y != 0
  {
  }

  lemma AndZero(x: bv64, y: bv64)
    requires x == 0 || y == 0
    ensures x & y == 0
  {
  }

  lemma AndSame(m: bv64)
    ensures m & m == m
  {
  }

  lemma XorCases(x: bv64, y: bv64, m: bv64)
    requires (x == 0 || x == m) && (y == 0 || y == m)
    ensures x ^ y != 0 <==> (x != 0) != (y != 0)
  {
  }

  lemma OrSingle(a: bv64, b: bv64, m: bv64)
    ensures (a | b) & m != 0 <==> a & m != 0 || b & m != 0
  {
    OrParts(a, b, m);
    OrCases(a & m, b & m);
  }

  lemma AndSingle(a: bv64, b: bv64, m: bv64)
    requires (a & m == 0 || a & m == m) && (b & m == 0 || b & m == m)
    ensures (a & b) & m != 0 <==> a & m != 0 && b & m != 0
  {
    AndParts(a, b, m);
    if a & m == 0 || b & m == 0 { AndZero(a & m, b & m); } else { AndSame(m); }
  }

  lemma XorSingle(a: bv64, b: bv64, m: bv64)
    requires (a & m == 0 || a & m == m) && (b & m == 0 || b & m == m)
    ensures (a ^ b) & m != 0 <==> (a & m != 0) != (b & m != 0)
  {
    XorParts(a, b, m);
    XorCases(a & m, b & m, m);
  }

  lemma NotSingle(a: bv64, m: bv64)
    requires (a & m == 0 || a & m == m) && m != 0
    ensures !a & m != 0 <==> a & m == 0
  {
    NotParts(a, m);
    XorCases(a & m, m, m);
  }

  lemma OrRaw(a: bv64, b: bv64, m: bv64)
    ensures Has(a | b, m) <==> Has(a, m) || Has(b, m)
  {
    OrSingle(a, b, m);
  }

  lemma OrHas(a: bv64, b: bv64, m: bv64)
    ensures Has(Or(a, b), m) <==> Has(a, m) || Has(b, m)
  {
    hide Has, Single;
    OrRaw(a, b, m);
  }

  lemma AndRaw(a: bv64, b: bv64, m: bv64)
    requires Single(a, m) && Single(b, m)
    ensures Has(a & b, m) <==> Has(a, m) && Has(b, m)
  {
    AndSingle(a, b, m);
  }

  lemma AndHas(a: bv64, b: bv64, m: bv64)
    requires Single(a, m) && Single(b, m)
    ensures Has(And(a, b), m) <==> Has(a, m) && Has(b, m)
  {
    hide Has, Single;
    AndRaw(a, b, m);
  }

  lemma XorRaw(a: bv64, b: bv64, m: bv64)
    requires Single(a, m) && Single(b, m)
    ensures Has(a ^ b, m) <==> Has(a, m) != Has(b, m)
  {
    XorSingle(a, b, m);
  }

  lemma XorHas(a: bv64, b: bv64, m: bv64)
    requires Single(a, m) && Single(b, m)
    ensures Has(Xor(a, b), m) <==> Has(a, m) != Has(b, m)
  {
    hide Has, Single;
    XorRaw(a, b, m);
  }

  lemma NotRaw(a: bv64, m: bv64)
    requires Single(a, m) && m != 0
    ensures Has(!a, m) <==> !Has(a, m)
  {
    NotSingle(a, m);
  }

  lemma NotHas(a: bv64, m: bv64)
    requires Single(a, m) && m != 0
    ensures Has(Not(a), m) <==> !Has(a, m)
  {
    hide Has, Single;
    NotRaw(a, m);
  }

  lemma HasSelf(m: bv64)
    requires m != 0
    ensures Has(m, m)
  {
    AndSame(m);
  }

  lemma HasNot(m: bv64, n: bv64)
    requires Apart(m, n)
    ensures !Has(m, n)
  {
  }

  lemma AndNotAt(w: bv64, m: bv64)
    ensures !Has(AndNot(w, m), m)
  {
    assert (w & !m) & m == 0;
  }

  lemma AndNotPast(w: bv64, m: bv64, n: bv64)
    requires Apart(m, n)
    ensures Has(AndNot(w, m), n) <==> Has(w, n)
  {
    hide Has;
    AndNotAway(w, m, n);
    assert (w & !m) & n == w & n by { hide AndNot; }
    SameMeet(AndNot(w, m), w, n);
  }

  lemma AndNotAway(w: bv64, m: bv64, n: bv64)
    requires m & n == 0
    ensures (w & !m) & n == w & n
  {
    AndNotParts(w, m, n);
    AndZero(w, m & n);
    XorZero(w & n);
  }

  lemma XorZero(x: bv64)
    ensures x ^ 0 == x
  {
  }

  lemma SameMeet(x: bv64, y: bv64, n: bv64)
    requires x & n == y & n
    ensures Has(x, n) <==> Has(y, n)
  {
  }

  lemma ZeroAnd(x: bv64)
    ensures !Has(0, x)
  {
  }

  lemma HalfOfLow(m: bv64)
    requires m != 0 && Apart(m, TOP)
    ensures Half(Less1(Shl(m))) == Less1(m)
  {
  }

  lemma ApartCommutes(x: bv64, y: bv64)
    requires Apart(x, y)
    ensures Apart(y, x)
  {
  }

  // ----- the 64 masks are non-zero, single and distinct -----

  lemma {:induction false} MaskByEight(n: nat)
    ensures Mask(n + 8) == Mask(n) << 8
  {
    hide Shl;
    EightShifts(Mask(n));
    assert Mask(n + 1) == Shl(Mask(n));
    assert Mask(n + 2) == Shl(Mask(n + 1));
    assert Mask(n + 3) == Shl(Mask(n + 2));
    assert Mask(n + 4) == Shl(Mask(n + 3));
    assert Mask(n + 5) == Shl(Mask(n + 4));
    assert Mask(n + 6) == Shl(Mask(n + 5));
    assert Mask(n + 7) == Shl(Mask(n + 6));
    assert Mask(n + 8) == Shl(Mask(n + 7));
  }

  lemma TopMask()
    ensures Mask(63) == TOP
  {
    assert Mask(0) == 1;
    MaskByEight(0);
    MaskByEight(8);
    MaskByEight(16);
    MaskByEight(24);
    MaskByEight(32);
    MaskByEight(40);
    MaskByEight(48);
    assert Mask(57) == Shl(Mask(56));
    assert Mask(58) == Shl(Mask(57));
    assert Mask(59) == Shl(Mask(58));
    assert Mask(60) == Shl(Mask(59));
    assert Mask(61) == Shl(Mask(60));
    assert Mask(62) == Shl(Mask(61));
    assert Mask(63) == Shl(Mask(62));
  }

  lemma {:induction false} ZeroStaysZero(n: nat, k: nat)
    requires n <= k && Mask(n) == 0
    ensures Mask(k) == 0
  {
    if n < k { ZeroStaysZero(n, k - 1); }
  }

  lemma MaskNonZero(n: nat)
    requires n < 64
    ensures Mask(n) != 0
  {
    TopMask();
    if Mask(n) == 0 { ZeroStaysZero(n, 63); }
  }

  lemma {:induction false} MaskIsSingle(x: bv64, n: nat)
    ensures Single(x, Mask(n))
    decreases n
  {
    hide Single, Has, Shl, Half, Less1;
    if n == 0 {
      OddBit(x);
    } else {
      MaskIsSingle(Half(x), n - 1);
      ShiftSingle(x, Mask(n - 1));
    }
  }

  lemma {:induction false} MasksDiffer(j: nat, k: nat)
    requires j < 64 && k < 64 && j != k
    ensures Apart(Mask(j), Mask(k))
  {
    hide Apart, Single, Has, Shl, Less1;
    if k < j {
      MasksDiffer(k, j);
      ApartCommutes(Mask(k), Mask(j));
    } else if j == 0 {
      OddBit(Mask(k - 1));
    } else {
      MasksDiffer(j - 1, k - 1);
      ShiftBoth(Mask(j - 1), Mask(k - 1));
    }
  }

  // ----- bit by bit -----

  lemma SetBit(w: bv64, j: nat, k: nat)
    requires j < 64 && k < 64
    ensures Bit(Or(w, Mask(j)), k) <==> Bit(w, k) || j == k
  {
    hide Mask, Has, Apart, Or;
    if j == k {
      MaskNonZero(k);
      HasSelf(Mask(k));
    } else {
      MasksDiffer(j, k);
      HasNot(Mask(j), Mask(k));
    }
    OrHas(w, Mask(j), Mask(k));
  }

  lemma ClearBit(w: bv64, j: nat, k: nat)
    requires j < 64 && k < 64
    ensures Bit(AndNot(w, Mask(j)), k) <==> Bit(w, k) && j != k
  {
    hide Mask, Has, Apart, AndNot;
    if j == k {
      AndNotAt(w, Mask(k));
    } else {
      MasksDiffer(j, k);
      AndNotPast(w, Mask(j), Mask(k));
    }
  }

  lemma CombinedBits(a: bv64, b: bv64, k: nat)
    requires k < 64
    ensures Bit(Or(a, b), k) <==> Bit(a, k) || Bit(b, k)
    ensures Bit(And(a, b), k) <==> Bit(a, k) && Bit(b, k)
    ensures Bit(Xor(a, b), k) <==> Bit(a, k) != Bit(b, k)
    ensures Bit(Not(a), k) <==> !Bit(a, k)
  {
    hide Mask, Has, Single, Or, And, Xor, Not;
    MaskNonZero(k);
    MaskIsSingle(a, k);
    MaskIsSingle(b, k);
    OrHas(a, b, Mask(k));
    AndHas(a, b, Mask(k));
    XorHas(a, b, Mask(k));
    NotHas(a, Mask(k));
  }

  /** `1<<n - 1` has exactly the bits below n. */
  lemma {:induction false} LowBits(n: nat, k: nat)
    requires 0 < n < 64 && k < 64
    ensures Bit(Less1(Mask(n)), k) <==> k < n
  {
    hide Shl, Has, Single, Half, Less1;
    if k == 0 {
      OddBit(Mask(n - 1));
    } else {
      LowHalf(n);
      MaskNonZero(k);
      MaskIsSingle(Less1(Mask(n - 1)), k - 1);
      ShiftSingle(Less1(Mask(n)), Mask(k - 1));
      if n == 1 {
        NothingLow(k - 1);
      } else {
        LowBits(n - 1, k - 1);
      }
    }
  }

  lemma NothingLow(k: nat)
    ensures !Bit(Less1(Mask(0)), k)
  {
    ZeroAnd(Mask(k));
  }

  lemma LowHalf(n: nat)
    requires 0 < n < 64
    ensures Half(Less1(Mask(n))) == Less1(Mask(n - 1))
  {
    hide Shl, Apart, Half, Less1;
    TopMask();
    MaskNonZero(n - 1);
    MasksDiffer(n - 1, 63);
    HalfOfLow(Mask(n - 1));
  }

  lemma ZeroHasNoBits(k: nat)
    ensures !Bit(0, k)
  {
    ZeroAnd(Mask(k));
  }
}
