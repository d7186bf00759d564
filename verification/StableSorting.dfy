/** slices.SortStableFunc: the sorted permutation that keeps the order of equal elements. */
module StableSorting {
  import opened Orders

  ghost predicate Sorted<T>(c: (T, T) -> int, s: seq<T>) {
    forall i, j :: 0 <= i < j < |s| ==> c(s[i], s[j]) <= 0
  }

  /** The elements that compare equal to x, in order. */
  function Equals<T>(c: (T, T) -> int, s: seq<T>, x: T): seq<T> {
    if s == [] then []
    else (if c(s[0], x) == 0 then [s[0]] else []) + Equals(c, s[1..], x)
  }

  /** r is s sorted, equal elements keeping their order. */
  ghost predicate StablySorted<T(!new)>(c: (T, T) -> int, s: seq<T>, r: seq<T>) {
    && multiset(r) == multiset(s)
    && Sorted(c, r)
    && forall x :: Equals(c, r, x) == Equals(c, s, x)
  }

  /** x after everything not greater. */
  function Insert<T>(c: (T, T) -> int, s: seq<T>, x: T): seq<T> {
    if s == [] then [x]
    else if c(s[0], x) <= 0 then [s[0]] + Insert(c, s[1..], x)
    else [x] + s
  }

  lemma {:induction false} InsertMembers<T>(c: (T, T) -> int, s: seq<T>, x: T)
    ensures multiset(Insert(c, s, x)) == multiset(s) + multiset{x}
  {
    if s != [] {
      InsertMembers(c, s[1..], x);
      assert s == [s[0]] + s[1..];
    }
  }

  lemma {:induction false} InsertSorted<T(!new)>(c: (T, T) -> int, s: seq<T>, x: T)
    requires TotalPreorder(c) && Sorted(c, s)
    ensures Sorted(c, Insert(c, s, x))
  {
    if s != [] {
      if c(s[0], x) <= 0 {
        InsertSorted(c, s[1..], x);
        var rest := Insert(c, s[1..], x);
        forall k | 0 <= k < |rest| ensures c(s[0], rest[k]) <= 0 { InsertMember(c, s[1..], x, k); }
      } else {
        forall k | 0 <= k < |s| ensures c(x, s[k]) <= 0 {
          assert c(x, s[0]) <= 0;
          if k > 0 { assert c(s[0], s[k]) <= 0; }
        }
      }
    }
  }

  lemma {:induction false} InsertMember<T>(c: (T, T) -> int, s: seq<T>, x: T, k: nat)
    requires k < |Insert(c, s, x)|
    ensures Insert(c, s, x)[k] == x || Insert(c, s, x)[k] in s
  {
    if s != [] && c(s[0], x) <= 0 && k > 0 { InsertMember(c, s[1..], x, k - 1); }
  }

  lemma {:induction false} InsertEquals<T(!new)>(c: (T, T) -> int, s: seq<T>, x: T, y: T)
    requires TotalPreorder(c) && Sorted(c, s)
    ensures Equals(c, Insert(c, s, x), y) == Equals(c, s, y) + (if c(x, y) == 0 then [x] else [])
  {
    if s != [] {
      if c(s[0], x) <= 0 {
        InsertEquals(c, s[1..], x, y);
        hide TotalPreorder, Sorted;
        EqualsCons(c, s[0], Insert(c, s[1..], x), y);
      } else {
        if c(x, y) == 0 { NoneEqual(c, s, x, y); }
        hide TotalPreorder, Sorted;
        EqualsCons(c, x, s, y);
      }
    }
  }

  lemma EqualsCons<T>(c: (T, T) -> int, x: T, s: seq<T>, y: T)
    ensures Equals(c, [x] + s, y) == (if c(x, y) == 0 then [x] else []) + Equals(c, s, y)
  {
    assert ([x] + s)[1..] == s;
  }

  /** Everything after a greater element is greater. */
  lemma {:induction false} NoneEqual<T(!new)>(c: (T, T) -> int, s: seq<T>, x: T, y: T)
    requires TotalPreorder(c) && Sorted(c, s) && c(x, y) == 0 && (s != [] ==> c(s[0], x) > 0)
    ensures Equals(c, s, y) == []
  {
    if s != [] {
      assert c(y, x) == 0;
      assert |s| > 1 ==> c(s[0], s[1]) <= 0;
      NoneEqual(c, s[1..], x, y);
    }
  }

  lemma {:induction false} EqualsAppend<T>(c: (T, T) -> int, s: seq<T>, x: T, y: T)
    ensures Equals(c, s + [x], y) == Equals(c, s, y) + (if c(x, y) == 0 then [x] else [])
  {
    if s != [] {
      assert (s + [x])[1..] == s[1..] + [x];
      EqualsAppend(c, s[1..], x, y);
    }
  }

  /** slices.SortStableFunc as a function of its argument. */
  function StableSort<T>(c: (T, T) -> int, s: seq<T>): seq<T> {
    if s == [] then [] else Insert(c, StableSort(c, s[..|s| - 1]), s[|s| - 1])
  }

  lemma {:induction false} StableSortSorts<T(!new)>(c: (T, T) -> int, s: seq<T>)
    requires TotalPreorder(c)
    ensures StablySorted(c, s, StableSort(c, s))
  {
    if s != [] {
      var n := |s| - 1;
      StableSortSorts(c, s[..n]);
      InsertKeeps(c, s[..n], StableSort(c, s[..n]), s[n]);
      assert s[..n] + [s[n]] == s;
      hide StablySorted;
    }
  }

  lemma InsertKeeps<T(!new)>(c: (T, T) -> int, s: seq<T>, r: seq<T>, x: T)
    requires TotalPreorder(c) && StablySorted(c, s, r)
    ensures StablySorted(c, s + [x], Insert(c, r, x))
  {
    InsertMembers(c, r, x);
    InsertSorted(c, r, x);
    forall y ensures Equals(c, Insert(c, r, x), y) == Equals(c, s + [x], y) {
      InsertEquals(c, r, x, y);
      EqualsAppend(c, s, x, y);
    }
  }

  /** There is only one stably sorted form. */
  lemma {:induction false} StableSortIsUnique<T(!new)>(c: (T, T) -> int, r: seq<T>, q: seq<T>)
    requires TotalPreorder(c) && Sorted(c, r) && Sorted(c, q) && |r| == |q|
    requires forall x :: Equals(c, r, x) == Equals(c, q, x)
    ensures r == q
  {
    if r != [] {
      FirstIsLeast(c, r, q);
      FirstIsLeast(c, q, r);
      assert Equals(c, r, r[0])[0] == r[0];
      assert Equals(c, q, r[0])[0] == q[0];
      forall x ensures Equals(c, r[1..], x) == Equals(c, q[1..], x) {
        EqualsTail(c, r, x);
        EqualsTail(c, q, x);
      }
      hide Equals;
      StableSortIsUnique(c, r[1..], q[1..]);
      assert r == [r[0]] + r[1..] && q == [q[0]] + q[1..];
    }
  }

  lemma EqualsTail<T>(c: (T, T) -> int, s: seq<T>, x: T)
    requires s != []
    ensures c(s[0], x) == 0 ==> Equals(c, s, x) != [] && Equals(c, s[1..], x) == Equals(c, s, x)[1..]
    ensures c(s[0], x) != 0 ==> Equals(c, s[1..], x) == Equals(c, s, x)
  {
  }

  lemma FirstIsLeast<T(!new)>(c: (T, T) -> int, r: seq<T>, q: seq<T>)
    requires TotalPreorder(c) && Sorted(c, r) && r != [] && q != []
    requires forall x :: Equals(c, r, x) == Equals(c, q, x)
    ensures c(r[0], q[0]) <= 0
  {
    assert c(q[0], q[0]) == 0;
    assert Equals(c, q, q[0]) != [];
    var k := EqualsMember(c, r, q[0]);
    if k > 0 { assert c(r[0], r[k]) <= 0; }
  }

  lemma {:induction false} EqualsMember<T>(c: (T, T) -> int, s: seq<T>, x: T) returns (k: nat)
    requires Equals(c, s, x) != []
    ensures k < |s| && c(s[k], x) == 0
  {
    if c(s[0], x) == 0 { k := 0; } else {
      k := EqualsMember(c, s[1..], x);
      k := k + 1;
    }
  }
}
