/** Whether two listings keep their common entries in one order (pkg/diffr/order.go). */
module OrderConsistency {

  ghost predicate DuplicateFree(s: seq<string>) {
    forall i, j :: 0 <= i < j < |s| ==> s[i] != s[j]
  }

  /** The entries of s that are in keep, in the order of s. */
  function Filter(s: seq<string>, keep: set<string>): seq<string> {
    if s == [] then []
    else (if s[0] in keep then [s[0]] else []) + Filter(s[1..], keep)
  }

  ghost function Entries(s: seq<string>): set<string> {
    set x | x in s
  }

  /** Identical, or free of duplicates with the same sequence of common entries. */
  ghost predicate Consistent(a: seq<string>, b: seq<string>) {
    || a == b
    || (&& DuplicateFree(a) && DuplicateFree(b)
        && Filter(a, Entries(b)) == Filter(b, Entries(a)))
  }

  ghost predicate Before(s: seq<string>, x: string, y: string) {
    exists i, j :: 0 <= i < j < |s| && s[i] == x && s[j] == y
  }

  // ----- filtering -----

  lemma {:induction false} FilterHas(s: seq<string>, keep: set<string>, x: string)
    ensures x in Filter(s, keep) <==> x in s && x in keep
  {
    if s != [] { FilterHas(s[1..], keep, x); }
  }

  lemma {:induction false} FilterFree(s: seq<string>, keep: set<string>)
    requires DuplicateFree(s)
    ensures DuplicateFree(Filter(s, keep))
  {
    if s != [] {
      FilterFree(s[1..], keep);
      FilterHas(s[1..], keep, s[0]);
    }
  }

  lemma BeforeTail(s: seq<string>, x: string, y: string)
    requires s != []
    ensures Before(s, x, y) <==> Before(s[1..], x, y) || (s[0] == x && y in s[1..])
  {
    if Before(s, x, y) {
      var i, j :| 0 <= i < j < |s| && s[i] == x && s[j] == y;
      assert s[1..][j - 1] == y;
      if i > 0 { assert s[1..][i - 1] == x; }
    }
    if Before(s[1..], x, y) {
      var i, j :| 0 <= i < j < |s[1..]| && s[1..][i] == x && s[1..][j] == y;
      assert s[i + 1] == x && s[j + 1] == y;
    }
    if s[0] == x && y in s[1..] {
      var j :| 0 <= j < |s[1..]| && s[1..][j] == y;
      assert s[0] == x && s[j + 1] == y;
    }
  }

  lemma {:induction false} FilterBefore(s: seq<string>, keep: set<string>, x: string, y: string)
    requires x in keep && y in keep
    ensures Before(Filter(s, keep), x, y) <==> Before(s, x, y)
  {
    if s != [] {
      FilterBefore(s[1..], keep, x, y);
      BeforeTail(s, x, y);
      FilterHas(s[1..], keep, y);
      if s[0] in keep {
        var f := Filter(s, keep);
        assert f[0] == s[0] && f[1..] == Filter(s[1..], keep);
        BeforeTail(f, x, y);
      } else {
        assert Filter(s, keep) == Filter(s[1..], keep);
      }
    }
  }

  // ----- from pairs to the whole sequence -----

  ghost predicate SamePairs(u: seq<string>, v: seq<string>) {
    forall x, y :: x in u && y in u && x != y ==> (Before(u, x, y) <==> Before(v, x, y))
  }

  lemma FirstIsFirst(u: seq<string>, y: string)
    requires DuplicateFree(u) && y in u && y != u[0]
    ensures Before(u, u[0], y) && !Before(u, y, u[0])
  {
    var j :| 0 <= j < |u| && u[j] == y;
    assert u[0] == u[0] && 0 < j;
  }

  lemma NonEmptyHas(v: seq<string>)
    ensures v != [] ==> exists x :: x in v
  {
    if v != [] { assert v[0] in v; }
  }

  /** Duplicate-free listings of the same entries that agree on every pair are equal. */
  lemma {:induction false} PairsDetermine(u: seq<string>, v: seq<string>)
    requires DuplicateFree(u) && DuplicateFree(v)
    requires forall x :: x in u <==> x in v
    requires SamePairs(u, v)
    ensures u == v
  {
    if u == [] {
      NonEmptyHas(v);
    } else {
      assert u[0] in v;
      FirstsAgree(u, v);
      var u', v' := u[1..], v[1..];
      assert u == [u[0]] + u' && v == [v[0]] + v';
      forall x ensures x in u' <==> x in v' {
        assert x in u <==> x == u[0] || x in u';
        assert x in v <==> x == v[0] || x in v';
      }
      forall x, y | x in u' && y in u' && x != y ensures Before(u', x, y) <==> Before(v', x, y) {
        BeforeTail(u, x, y);
        BeforeTail(v, x, y);
        assert x in u && y in u;
      }
      PairsDetermine(u', v');
    }
  }

  lemma FirstsAgree(u: seq<string>, v: seq<string>)
    requires DuplicateFree(u) && DuplicateFree(v) && u != [] && v != []
    requires forall x :: x in u <==> x in v
    requires SamePairs(u, v)
    ensures u[0] == v[0]
  {
    if u[0] != v[0] {
      assert v[0] in v && u[0] in u;
      FirstIsFirst(u, v[0]);
      FirstIsFirst(v, u[0]);
      assert false;
    }
  }

  /** The common entries agree on every pair if and only if they form the same sequence. */
  lemma PairsIffSequence(a: seq<string>, b: seq<string>)
    requires DuplicateFree(a) && DuplicateFree(b)
    ensures Filter(a, Entries(b)) == Filter(b, Entries(a)) <==> AgreeOnPairs(a, b)
  {
    var u, v := Filter(a, Entries(b)), Filter(b, Entries(a));
    forall x ensures x in u <==> x in a && x in b { FilterHas(a, Entries(b), x); }
    forall x ensures x in v <==> x in a && x in b { FilterHas(b, Entries(a), x); }
    forall x, y | x in a && x in b && y in a && y in b
      ensures (Before(u, x, y) <==> Before(a, x, y)) && (Before(v, x, y) <==> Before(b, x, y))
    {
      FilterBefore(a, Entries(b), x, y);
      FilterBefore(b, Entries(a), x, y);
    }
    if AgreeOnPairs(a, b) {
      FilterFree(a, Entries(b));
      FilterFree(b, Entries(a));
      PairsDetermine(u, v);
    }
  }

  ghost predicate AgreeOnPairs(a: seq<string>, b: seq<string>) {
    forall x, y :: x in a && x in b && y in a && y in b && x != y ==> (Before(a, x, y) <==> Before(b, x, y))
  }

  // ----- the algorithm -----

  /** pos is the inverse of s. */
  ghost predicate Positions(s: seq<string>, pos: map<string, int>) {
    && (forall i :: 0 <= i < |s| ==> s[i] in pos && pos[s[i]] == i)
    && (forall x :: x in pos ==> 0 <= pos[x] < |s| && s[pos[x]] == x)
  }

  lemma PositionsCompare(s: seq<string>, pos: map<string, int>, x: string, y: string)
    requires Positions(s, pos) && x in pos && y in pos
    ensures pos[x] < pos[y] <==> Before(s, x, y)
  {
    if pos[x] < pos[y] { assert s[pos[x]] == x && s[pos[y]] == y; }
  }

  /** The loop that builds a position map, giving up at the first duplicate. */
  method PositionsOf(s: seq<string>) returns (pos: map<string, int>, ok: bool)
    ensures ok <==> DuplicateFree(s)
    ensures ok ==> Positions(s, pos)
  {
    pos := map[];
    for i := 0 to |s|
      invariant DuplicateFree(s[..i])
      invariant forall j :: 0 <= j < i ==> s[j] in pos && pos[s[j]] == j
      invariant forall x :: x in pos ==> 0 <= pos[x] < i && s[pos[x]] == x
    {
      if s[i] in pos { return pos, false; }
      pos := pos[s[i] := i];
    }
    assert s[..|s|] == s;
    ok := true;
  }

  /** The entries of both maps, in the unspecified order of ranging over the first. */
  method CommonEntries(pos1: map<string, int>, pos2: map<string, int>) returns (common: seq<string>)
    ensures DuplicateFree(common)
    ensures forall x :: x in common <==> x in pos1 && x in pos2
  {
    common := [];
    var rest := pos1.Keys;
    while rest != {}
      invariant rest <= pos1.Keys
      invariant DuplicateFree(common)
      invariant forall x :: x in common <==> x in pos1 && x !in rest && x in pos2
    {
      var name :| name in rest;
      rest := rest - {name};
      if name in pos2 { common := common + [name]; }
    }
  }

  method CheckOrderConsistency(order1: seq<string>, order2: seq<string>) returns (r: bool)
    ensures r <==> Consistent(order1, order2)
  {
    if order1 == order2 { return true; }
    var pos1, ok1 := PositionsOf(order1);
    if !ok1 { return false; }
    var pos2, ok2 := PositionsOf(order2);
    if !ok2 { return false; }
    PairsIffSequence(order1, order2);
    var common := CommonEntries(pos1, pos2);
    assert forall x :: x in common <==> x in order1 && x in order2;
    r := AllAlike(common, pos1, pos2);
    PairsDecided(order1, pos1, order2, pos2, common);
  }

  /** The maps order x and y alike. */
  predicate Alike(pos1: map<string, int>, pos2: map<string, int>, x: string, y: string)
    requires x in pos1 && x in pos2 && y in pos1 && y in pos2
  {
    (pos1[x] < pos1[y]) == (pos2[x] < pos2[y])
  }

  /** The scan over all pairs of common entries. */
  method AllAlike(common: seq<string>, pos1: map<string, int>, pos2: map<string, int>) returns (r: bool)
    requires forall k :: 0 <= k < |common| ==> common[k] in pos1 && common[k] in pos2
    ensures r <==> forall k, j :: 0 <= k < j < |common| ==> Alike(pos1, pos2, common[k], common[j])
  {
    for i := 0 to |common|
      invariant forall k, j :: 0 <= k < i && k < j < |common| ==> Alike(pos1, pos2, common[k], common[j])
    {
      for j := i + 1 to |common|
        invariant forall l :: i < l < j ==> Alike(pos1, pos2, common[i], common[l])
      {
        if !Alike(pos1, pos2, common[i], common[j]) { return false; }
      }
    }
    return true;
  }

  lemma PairDecided(a: seq<string>, pos1: map<string, int>, b: seq<string>, pos2: map<string, int>, x: string,
                    y: string)
    requires Positions(a, pos1) && Positions(b, pos2) && x != y
    requires x in pos1 && y in pos1 && x in pos2 && y in pos2
    ensures Alike(pos1, pos2, x, y) <==> (Before(a, x, y) <==> Before(b, x, y))
    ensures Alike(pos1, pos2, x, y) <==> (Before(a, y, x) <==> Before(b, y, x))
  {
    hide Before;
    PositionsCompare(a, pos1, x, y);
    PositionsCompare(b, pos2, x, y);
    PositionsCompare(a, pos1, y, x);
    PositionsCompare(b, pos2, y, x);
    assert a[pos1[x]] != a[pos1[y]] && b[pos2[x]] != b[pos2[y]];
  }

  /** Comparing positions once per pair of distinct common entries decides agreement. */
  lemma PairsDecided(a: seq<string>, pos1: map<string, int>, b: seq<string>, pos2: map<string, int>,
                     common: seq<string>)
    requires Positions(a, pos1) && Positions(b, pos2) && DuplicateFree(common)
    requires forall x :: x in common <==> x in pos1 && x in pos2
    requires forall x :: x in common <==> x in a && x in b
    ensures (forall k, j :: 0 <= k < j < |common| ==> Alike(pos1, pos2, common[k], common[j])) <==> AgreeOnPairs(a, b)
  {
    forall k, j | 0 <= k < j < |common|
      ensures Alike(pos1, pos2, common[k], common[j]) <==> (Before(a, common[k], common[j]) <==>
                                                            Before(b, common[k], common[j]))
      ensures Alike(pos1, pos2, common[k], common[j]) <==> (Before(a, common[j], common[k]) <==>
                                                            Before(b, common[j], common[k]))
    {
      PairDecided(a, pos1, b, pos2, common[k], common[j]);
    }
    hide Before, Positions, Alike;
    if forall k, j :: 0 <= k < j < |common| ==> Alike(pos1, pos2, common[k], common[j]) {
      forall x, y | x in a && x in b && y in a && y in b && x != y ensures Before(a, x, y) <==> Before(b, x, y) {
        var k := PlaceOf(common, x);
        var j := PlaceOf(common, y);
        assert Alike(pos1, pos2, common[if k < j then k else j], common[if k < j then j else k]);
      }
    }
  }

  lemma PlaceOf(s: seq<string>, x: string) returns (k: nat)
    requires x in s
    ensures k < |s| && s[k] == x
  {
    k :| 0 <= k < |s| && s[k] == x;
  }
}
