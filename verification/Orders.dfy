/** Three-way comparisons and their lexicographic extension. */
module Orders {

  /** Results -1, 0 and 1; swapping the arguments flips the sign; "not after" is transitive. */
  ghost predicate TotalPreorder<T(!new)>(c: (T, T) -> int) {
    && (forall a, b :: -1 <= c(a, b) <= 1 && c(a, b) == -c(b, a))
    && (forall x, y, z :: c(x, y) <= 0 && c(y, z) <= 0 ==> c(x, z) <= 0)
  }

  /** cmp.Compare on integers. */
  function CompareInt(a: int, b: int): int {
    if a < b then -1 else if a > b then 1 else 0
  }

  function CompareChar(a: char, b: char): int {
    CompareInt(a as int, b as int)
  }

  /** The first pair that differs decides, else the longer sequence is greater. */
  function Lex<T>(c: (T, T) -> int, a: seq<T>, b: seq<T>): int {
    if a == [] || b == [] then CompareInt(|a|, |b|)
    else if c(a[0], b[0]) != 0 then c(a[0], b[0])
    else Lex(c, a[1..], b[1..])
  }

  /** strings.Compare. */
  function CompareString(a: string, b: string): int {
    Lex(CompareChar, a, b)
  }

  /** cmp.Or of two comparisons: the second only breaks ties of the first. */
  function Then(first: int, second: int): int {
    if first != 0 then first else second
  }

  lemma {:induction false} LexSwap<T(!new)>(c: (T, T) -> int, a: seq<T>, b: seq<T>)
    requires TotalPreorder(c)
    ensures -1 <= Lex(c, a, b) <= 1 && Lex(c, a, b) == -Lex(c, b, a)
  {
    if a != [] && b != [] { LexSwap(c, a[1..], b[1..]); }
  }

  lemma {:induction false} LexTransitive<T(!new)>(c: (T, T) -> int, x: seq<T>, y: seq<T>, z: seq<T>)
    requires TotalPreorder(c) && Lex(c, x, y) <= 0 && Lex(c, y, z) <= 0
    ensures Lex(c, x, z) <= 0
  {
    if x != [] && y != [] && z != [] {
      assert c(x[0], z[0]) <= 0;
      if c(x[0], y[0]) == 0 && c(y[0], z[0]) == 0 {
        LexTransitive(c, x[1..], y[1..], z[1..]);
      }
    }
  }

  /** Comparing by the lexicographic extension of c. */
  lemma LexOrders<T(!new)>(c: (T, T) -> int, lex: (seq<T>, seq<T>) -> int)
    requires TotalPreorder(c) && forall a, b :: lex(a, b) == Lex(c, a, b)
    ensures TotalPreorder(lex)
  {
    forall a, b ensures -1 <= lex(a, b) <= 1 && lex(a, b) == -lex(b, a) {
      LexSwap(c, a, b);
    }
    forall x, y, z | lex(x, y) <= 0 && lex(y, z) <= 0 ensures lex(x, z) <= 0 {
      LexTransitive(c, x, y, z);
    }
  }

  /** Comparing by c and breaking ties by d. */
  lemma ThenOrders<T(!new)>(c: (T, T) -> int, d: (T, T) -> int, e: (T, T) -> int)
    requires TotalPreorder(c) && TotalPreorder(d) && forall a, b :: e(a, b) == Then(c(a, b), d(a, b))
    ensures TotalPreorder(e)
  {
    forall x, y, z | e(x, y) <= 0 && e(y, z) <= 0 ensures e(x, z) <= 0 {
      assert c(x, z) <= 0;
      if c(x, z) == 0 {
        assert c(z, x) == 0;
        assert c(z, y) <= 0 && c(y, x) <= 0;
      }
    }
  }

  /** Comparing by a key. */
  lemma KeyOrders<T(!new), K(!new)>(key: T -> K, c: (K, K) -> int, e: (T, T) -> int)
    requires TotalPreorder(c) && forall a, b :: e(a, b) == c(key(a), key(b))
    ensures TotalPreorder(e)
  {
  }

  lemma IntsAreOrdered()
    ensures TotalPreorder(CompareInt) && TotalPreorder(CompareChar)
  {
  }

  lemma StringsAreOrdered()
    ensures TotalPreorder(CompareString)
  {
    IntsAreOrdered();
    LexOrders(CompareChar, CompareString);
  }

  lemma {:induction false} EqualStrings(a: string, b: string)
    ensures CompareString(a, b) == 0 <==> a == b
  {
    if a != [] && b != [] {
      EqualStrings(a[1..], b[1..]);
      assert a == [a[0]] + a[1..] && b == [b[0]] + b[1..];
    }
  }
}
