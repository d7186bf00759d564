/** Segment names and what replaying them means (internal/docdb/segments.go, cache.go:234-265). */
module Segments {
  import opened Upserts
  import opened Options
  import opened Convergence

  /** Milliseconds. */
  type Time = int

  const SECOND: int := 1000

  /** cacheSlack, two minutes. */
  const CACHE_SLACK: int := 120 * SECOND

  /** A name is the second its write time falls in: the format has no finer field. */
  function SegmentName(t: Time): int { t / SECOND }

  function SegmentTime(name: int): Time { name * SECOND }

  /** One segment object: its records and, for the proofs only, the run that wrote
      it: when that started and which durable writes each table's scan came after. */
  datatype Segment = Segment(recs: seq<Rec>, now: Time, saw: map<string, set<Rec>>)

  type Store = map<int, Segment>

  // ----- listing in write order -----

  lemma Member<T>(s: set<T>) returns (x: T)
    requires s != {}
    ensures x in s
  {
    x :| x in s;
  }

  lemma {:induction false} MaxWitness(s: set<int>) returns (m: int)
    requires s != {}
    ensures m in s && forall x :: x in s ==> x <= m
  {
    m := Member(s);
    if s != {m} {
      var rest := s - {m};
      var m' := MaxWitness(rest);
      assert forall x :: x in s ==> x == m || x in rest;
      m := if m' > m then m' else m;
    }
  }

  lemma HasMax(s: set<int>)
    requires s != {}
    ensures exists m :: m in s && forall x :: x in s ==> x <= m
  {
    var m := MaxWitness(s);
  }

  function Max(s: set<int>): (m: int)
    requires s != {}
    ensures m in s && forall x :: x in s ==> x <= m
  {
    HasMax(s);
    var m :| m in s && forall x :: x in s ==> x <= m;
    m
  }

  function Sorted(s: set<int>): (names: seq<int>)
    ensures |names| == |s|
  {
    if s == {} then [] else
      var m := Max(s);
      Sorted(s - {m}) + [m]
  }

  /** Sorted lists exactly the set, in ascending order. */
  lemma {:induction false} SortedLists(s: set<int>)
    ensures forall x :: x in Sorted(s) <==> x in s
    ensures Ascending(Sorted(s))
  {
    if s != {} {
      var m := Max(s);
      var init := Sorted(s - {m});
      SortedLists(s - {m});
      forall i | 0 <= i < |init| ensures init[i] < m {
        assert init[i] in init;
      }
    }
  }

  ghost predicate Ascending(names: seq<int>) {
    forall i, j :: 0 <= i < j < |names| ==> names[i] < names[j]
  }

  /** Only one ascending sequence lists a set. */
  lemma {:induction false} SortedUnique(names: seq<int>, s: set<int>)
    requires Ascending(names) && forall x :: x in names <==> x in s
    ensures names == Sorted(s)
  {
    if names == [] {
      if s != {} {
        var x := Member(s);
      }
    } else {
      var init, last := names[..|names| - 1], names[|names| - 1];
      assert names == init + [last];
      assert last in s;
      assert last == Max(s);
      SortedUnique(init, s - {last});
    }
  }

  lemma SortedUnion(s: set<int>, t: set<int>)
    requires forall x, y :: x in s && y in t ==> x < y
    ensures Sorted(s + t) == Sorted(s) + Sorted(t)
  {
    SortedLists(s);
    SortedLists(t);
    AscendingConcat(Sorted(s), Sorted(t));
    hide Sorted, Ascending;
    SortedUnique(Sorted(s) + Sorted(t), s + t);
  }

  lemma AscendingConcat(a: seq<int>, b: seq<int>)
    requires Ascending(a) && Ascending(b) && forall x, y :: x in a && y in b ==> x < y
    ensures Ascending(a + b)
  {
    forall i, j | 0 <= i < |a| && 0 <= j < |b| ensures a[i] < b[j] {
      assert a[i] in a && b[j] in b;
    }
  }

  /** The first names of a listing are the listing of the smaller names. */
  lemma SortedPrefix(s: set<int>, i: nat, t: set<int>)
    requires i < |s|
    requires forall x :: x in t <==> x in s && x <= Sorted(s)[i]
    ensures Sorted(t) == Sorted(s)[..i + 1]
  {
    SortedLists(s);
    SortedUnique(Sorted(s)[..i + 1], t);
  }

  lemma LastIsGreatest(s: set<int>)
    ensures forall x :: x in s ==> Sorted(s) != [] && x <= Sorted(s)[|s| - 1]
    ensures Sorted(s) != [] ==> Sorted(s)[|s| - 1] in s
  {
    SortedLists(s);
    var names := Sorted(s);
    hide Sorted;
    forall x | x in s ensures names != [] && x <= names[|s| - 1] {
      var i :| 0 <= i < |names| && names[i] == x;
    }
    if names != [] { assert names[|s| - 1] in names; }
  }

  // ----- replay -----

  /** ListSegments from a start name, in write order. */
  function ListSegments(store: Store, start: int): seq<int> {
    Sorted(set n | n in store && n >= start)
  }

  /** Where the replay over a base begins. */
  function FirstName(watermark: Time): int {
    SegmentName(watermark - CACHE_SLACK)
  }

  /** fetchNewSegments: the listing includes the resume point, which is skipped. */
  function NewSegments(store: Store, after: Option<int>, watermark: Time): seq<int> {
    match after
    case None => ListSegments(store, FirstName(watermark))
    case Some(a) => Sorted(set n | n in store && n >= a && n != a)
  }

  /** The records of the named segments, in that order; a name the store lacks has none. */
  function RecordsOf(store: Store, names: seq<int>): seq<Rec> {
    if names == [] then []
    else
      var last := names[|names| - 1];
      RecordsOf(store, names[..|names| - 1]) + (if last in store then store[last].recs else [])
  }

  /** The rows a base comes to after the named segments, applied in that order. */
  function Replay(rows: Rows, store: Store, names: seq<int>): Rows {
    Fold(rows, RecordsOf(store, names))
  }

  /** The segments a cache over a base with this watermark has applied: every one
      in the store from the slack window on, up to the newest applied. */
  function AppliedNames(store: Store, watermark: Time, applied: Option<int>): seq<int> {
    match applied
    case None => []
    case Some(a) => Sorted(set n | n in store && FirstName(watermark) <= n <= a)
  }

  lemma {:induction false} RecordsFrame(store: Store, store': Store, names: seq<int>)
    requires forall i :: 0 <= i < |names| ==> names[i] in store && names[i] in store'
                                              && store[names[i]].recs == store'[names[i]].recs
    ensures RecordsOf(store, names) == RecordsOf(store', names)
  {
    if names != [] {
      RecordsFrame(store, store', names[..|names| - 1]);
    }
  }

  lemma {:induction false} RecordsHave(store: Store, names: seq<int>)
    ensures forall n, r :: n in names && n in store && r in store[n].recs ==> r in RecordsOf(store, names)
    ensures forall r :: r in RecordsOf(store, names) ==> exists n :: n in names && n in store && r in store[n].recs
  {
    if names != [] {
      var init, last := names[..|names| - 1], names[|names| - 1];
      assert names == init + [last];
      RecordsHave(store, init);
    }
  }

  lemma ReplayOneMore(rows: Rows, store: Store, names: seq<int>, n: int)
    requires n in store
    ensures Replay(rows, store, names + [n]) == Fold(Replay(rows, store, names), store[n].recs)
  {
    assert (names + [n])[..|names|] == names;
    FoldConcat(rows, RecordsOf(store, names), store[n].recs);
  }
}
