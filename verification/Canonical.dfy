/** Pipelines that clean entries one by one and sort the archive by name, in any order:
    the common ground of tar and zip stabilization. */
module Canonical {
  import opened Orders

  /** `step` is what a stabilizer does to one entry; `sorts` marks the one that reorders the
      archive instead; `cleaned` is meant to be what a set of stabilizers does together. */
  datatype Pipeline<!F, !T> = Pipeline(name: T -> string, sorts: F -> bool, step: (F, T) -> T,
                                       cleaned: (set<F>, T) -> T)

  /** Stabilizers keep names, commute, and do nothing when repeated; sorting changes no entry. */
  ghost predicate Lawful<F(!new), T(!new)>(p: Pipeline<F, T>) {
    && (forall f, t :: p.name(p.step(f, t)) == p.name(t))
    && (forall done, t :: p.name(p.cleaned(done, t)) == p.name(t))
    && (forall t :: p.cleaned({}, t) == t)
    && (forall done, f, t :: p.step(f, p.cleaned(done, t)) == p.cleaned(done + {f}, t))
    && (forall f, t :: p.sorts(f) ==> p.step(f, t) == t)
  }

  function Map<T, U>(f: T -> U, s: seq<T>): (r: seq<U>)
    ensures |r| == |s| && forall i :: 0 <= i < |s| ==> r[i] == f(s[i])
  {
    if s == [] then [] else Map(f, s[..|s| - 1]) + [f(s[|s| - 1])]
  }

  ghost predicate SortedByName<T>(name: T -> string, s: seq<T>) {
    forall i, j :: 0 <= i < j < |s| ==> CompareString(name(s[i]), name(s[j])) <= 0
  }

  ghost predicate DistinctNames<T>(name: T -> string, s: seq<T>) {
    forall i, j :: 0 <= i < j < |s| ==> name(s[i]) != name(s[j])
  }

  /** One stabilizer applied to an archive. Sorting may leave entries of one name in any order. */
  ghost predicate Step<F, T>(p: Pipeline<F, T>, f: F, a: seq<T>, b: seq<T>) {
    if p.sorts(f) then multiset(a) == multiset(b) && SortedByName(p.name, b)
    else b == Map(t => p.step(f, t), a)
  }

  /** The archive after each stabilizer of the list. */
  ghost predicate Runs<F, T>(p: Pipeline<F, T>, l: seq<F>, states: seq<seq<T>>) {
    && |states| == |l| + 1
    && forall k :: 0 <= k < |l| ==> Step(p, l[k], states[k], states[k + 1])
  }

  ghost function Among<F>(l: seq<F>): set<F> {
    set f | f in l
  }

  /** The cleaned forms of the entries. */
  ghost function Cleaned<F, T>(p: Pipeline<F, T>, done: set<F>, s: seq<T>): seq<T> {
    Map(t => p.cleaned(done, t), s)
  }

  // ----- what a run has done so far -----

  lemma {:induction false} MapMultiset<T, U>(f: T -> U, a: seq<T>, b: seq<T>)
    requires multiset(a) == multiset(b)
    ensures multiset(Map(f, a)) == multiset(Map(f, b))
  {
    if a == [] {
      EmptyMultiset(b);
    } else {
      var n, x := |a| - 1, a[|a| - 1];
      var left, right := SplitOff(a, b);
      MapMultiset(f, a[..n], left + right);
      MapInsert(f, left, x, right);
      Appended(Map(f, a[..n]), f(x));
    }
  }

  /** b around an occurrence of the last element of a. */
  lemma SplitOff<T>(a: seq<T>, b: seq<T>) returns (left: seq<T>, right: seq<T>)
    requires a != [] && multiset(a) == multiset(b)
    ensures b == left + [a[|a| - 1]] + right
    ensures multiset(left + right) == multiset(a[..|a| - 1])
  {
    var n, x := |a| - 1, a[|a| - 1];
    var i := Occurrence(a, b);
    left, right := b[..i], b[i + 1..];
    assert b == left + [x] + right;
    Insertion(left, x, right);
    Appended(a[..n], x);
    assert a[..n] + [x] == a;
    Cancel(multiset(left + right), multiset(a[..n]), x);
  }

  lemma Cancel<T>(m: multiset<T>, n: multiset<T>, x: T)
    requires m + multiset{x} == n + multiset{x}
    ensures m == n
  {
    assert m == (m + multiset{x}) - multiset{x};
    assert n == (n + multiset{x}) - multiset{x};
  }

  lemma Appended<T>(s: seq<T>, x: T)
    ensures multiset(s + [x]) == multiset(s) + multiset{x}
  {
  }

  lemma EmptyMultiset<T>(b: seq<T>)
    requires multiset(b) == multiset{}
    ensures b == []
  {
    assert |b| == |multiset(b)|;
  }

  /** Where the last element of a occurs in b. */
  lemma Occurrence<T>(a: seq<T>, b: seq<T>) returns (i: nat)
    requires a != [] && multiset(a) == multiset(b)
    ensures i < |b| && b[i] == a[|a| - 1]
  {
    var x := a[|a| - 1];
    assert x in multiset(b);
    i :| 0 <= i < |b| && b[i] == x;
  }

  lemma Insertion<T>(left: seq<T>, x: T, right: seq<T>)
    ensures multiset(left + [x] + right) == multiset(left + right) + multiset{x}
  {
  }

  lemma MapConcat<T, U>(f: T -> U, left: seq<T>, right: seq<T>)
    ensures Map(f, left + right) == Map(f, left) + Map(f, right)
  {
  }

  lemma MapInsert<T, U>(f: T -> U, left: seq<T>, x: T, right: seq<T>)
    ensures multiset(Map(f, left + [x] + right)) == multiset(Map(f, left + right)) + multiset{f(x)}
  {
    MapConcat(f, left, right);
    MapConcat(f, left + [x], right);
    MapConcat(f, left, [x]);
    assert Map(f, [x]) == [f(x)];
    hide Map;
    Insertion(Map(f, left), f(x), Map(f, right));
  }

  lemma StepCleans<F(!new), T(!new)>(p: Pipeline<F, T>, f: F, done: set<F>, original: seq<T>, a: seq<T>, b: seq<T>)
    requires Lawful(p) && Step(p, f, a, b)
    requires multiset(a) == multiset(Cleaned(p, done, original))
    ensures multiset(b) == multiset(Cleaned(p, done + {f}, original))
  {
    var c := Cleaned(p, done, original);
    if p.sorts(f) {
      forall i | 0 <= i < |original| ensures c[i] == Cleaned(p, done + {f}, original)[i] {
        assert p.step(f, p.cleaned(done, original[i])) == p.cleaned(done, original[i]);
      }
      assert c == Cleaned(p, done + {f}, original);
    } else {
      var g := t => p.step(f, t);
      MapMultiset(g, a, c);
      assert Map(g, c) == Cleaned(p, done + {f}, original);
    }
  }

  lemma {:induction false} RunCleans<F(!new), T(!new)>(p: Pipeline<F, T>, l: seq<F>, states: seq<seq<T>>, k: nat)
    requires Lawful(p) && Runs(p, l, states) && k <= |l|
    ensures multiset(states[k]) == multiset(Cleaned(p, Among(l[..k]), states[0]))
  {
    hide Cleaned, Lawful, Among, Step, Map;
    if k == 0 {
      CleanedByNone(p, states[0]);
      NoneAmong(l[..0]);
    } else {
      RunCleans(p, l, states, k - 1);
      AmongOneMore(l, k);
      StepCleans(p, l[k - 1], Among(l[..k - 1]), states[0], states[k - 1], states[k]);
    }
  }

  lemma NoneAmong<F>(l: seq<F>)
    requires l == []
    ensures Among(l) == {}
  {
  }

  lemma CleanedByNone<F(!new), T(!new)>(p: Pipeline<F, T>, s: seq<T>)
    requires Lawful(p)
    ensures Cleaned(p, {}, s) == s
  {
  }

  lemma AmongOneMore<F>(l: seq<F>, k: nat)
    requires 0 < k <= |l|
    ensures Among(l[..k]) == Among(l[..k - 1]) + {l[k - 1]}
  {
    assert l[..k] == l[..k - 1] + [l[k - 1]];
  }

  /** Once sorted, always sorted: cleaning keeps names and so the order. */
  lemma {:induction false} RunSorts<F(!new), T(!new)>(p: Pipeline<F, T>, l: seq<F>, states: seq<seq<T>>, i: nat, k: nat)
    requires Lawful(p) && Runs(p, l, states) && i < k <= |l| && p.sorts(l[i])
    ensures SortedByName(p.name, states[k])
  {
    assert Step(p, l[k - 1], states[k - 1], states[k]);
    if i < k - 1 && !p.sorts(l[k - 1]) {
      RunSorts(p, l, states, i, k - 1);
      forall u, v | 0 <= u < v < |states[k]| ensures CompareString(p.name(states[k][u]), p.name(states[k][v])) <= 0 {
        assert p.name(states[k][u]) == p.name(states[k - 1][u]) && p.name(states[k][v]) == p.name(states[k - 1][v]);
      }
    }
  }

  // ----- distinct names leave only one order -----

  lemma SortedTail<T>(name: T -> string, s: seq<T>)
    requires s != [] && SortedByName(name, s) && DistinctNames(name, s)
    ensures SortedByName(name, s[1..]) && DistinctNames(name, s[1..])
    ensures forall x :: x in s[1..] <==> x in s && x != s[0]
  {
    assert s == [s[0]] + s[1..];
  }

  lemma {:induction false} SortedUnique<T(!new)>(name: T -> string, a: seq<T>, b: seq<T>)
    requires SortedByName(name, a) && SortedByName(name, b) && DistinctNames(name, a) && DistinctNames(name, b)
    requires forall x :: x in a <==> x in b
    ensures a == b
  {
    if a != [] && b != [] {
      HeadsAgree(name, a, b);
      SortedTail(name, a);
      SortedTail(name, b);
      SortedUnique(name, a[1..], b[1..]);
      assert a == [a[0]] + a[1..] && b == [b[0]] + b[1..];
    } else {
      HasMember(a);
      HasMember(b);
    }
  }

  lemma HasMember<T>(s: seq<T>)
    ensures s != [] ==> exists x :: x in s
  {
    if s != [] { assert s[0] in s; }
  }

  lemma HeadsAgree<T(!new)>(name: T -> string, a: seq<T>, b: seq<T>)
    requires a != [] && b != []
    requires SortedByName(name, a) && SortedByName(name, b) && DistinctNames(name, a) && DistinctNames(name, b)
    requires forall x :: x in a <==> x in b
    ensures a[0] == b[0]
  {
    assert a[0] in b && b[0] in a;
    var i :| 0 <= i < |a| && a[i] == b[0];
    var j :| 0 <= j < |b| && b[j] == a[0];
    if i > 0 && j > 0 {
      StringsAreOrdered();
      EqualStrings(name(a[0]), name(b[0]));
      assert false;
    }
  }

  // ----- the canonical form -----

  lemma SameMembers<T>(a: seq<T>, b: seq<T>, x: T)
    requires multiset(a) == multiset(b)
    ensures x in a <==> x in b
  {
    assert x in a <==> x in multiset(a);
    assert x in b <==> x in multiset(b);
  }

  lemma {:induction false} DistinctPermutation<T>(name: T -> string, a: seq<T>, b: seq<T>)
    requires multiset(a) == multiset(b) && DistinctNames(name, a)
    ensures DistinctNames(name, b)
  {
    forall i, j | 0 <= i < j < |b| ensures name(b[i]) != name(b[j]) {
      if name(b[i]) == name(b[j]) {
        SameMembers(a, b, b[i]);
        SameMembers(a, b, b[j]);
        assert b[i] == b[j];
        TwiceIn(b, i, j);
        OnceIn(name, a, b[i]);
        assert false;
      }
    }
  }

  lemma TwiceIn<T>(s: seq<T>, i: nat, j: nat)
    requires i < j < |s| && s[i] == s[j]
    ensures multiset(s)[s[i]] >= 2
  {
    assert s == s[..i] + [s[i]] + s[i + 1..j] + [s[j]] + s[j + 1..];
  }

  lemma {:induction false} OnceIn<T>(name: T -> string, s: seq<T>, x: T)
    requires DistinctNames(name, s)
    ensures multiset(s)[x] <= 1
  {
    if s != [] {
      var n := |s| - 1;
      OnceIn(name, s[..n], x);
      assert s == s[..n] + [s[n]];
      Appended(s[..n], s[n]);
      assert forall i :: 0 <= i < n ==> s[..n][i] == s[i] && name(s[i]) != name(s[n]);
      assert x in s[..n] <==> x in multiset(s[..n]);
    }
  }

  /** A run that sorts at some point ends sorted, with distinct names, and with exactly the
      cleaned forms of the entries it started from. */
  lemma RunEnds<F(!new), T(!new)>(p: Pipeline<F, T>, l: seq<F>, states: seq<seq<T>>, i: nat)
    requires Lawful(p) && Runs(p, l, states) && i < |l| && p.sorts(l[i])
    requires DistinctNames(p.name, states[0])
    ensures SortedByName(p.name, states[|l|]) && DistinctNames(p.name, states[|l|])
    ensures forall x :: x in states[|l|] <==> x in Cleaned(p, Among(l), states[0])
  {
    RunCleans(p, l, states, |l|);
    assert l[..|l|] == l;
    RunSorts(p, l, states, i, |l|);
    var c := Cleaned(p, Among(l), states[0]);
    forall u, v | 0 <= u < v < |c| ensures p.name(c[u]) != p.name(c[v]) {
      assert p.name(c[u]) == p.name(states[0][u]) && p.name(c[v]) == p.name(states[0][v]);
    }
    DistinctPermutation(p.name, c, states[|l|]);
    forall x ensures x in states[|l|] <==> x in c { SameMembers(states[|l|], c, x); }
  }

  /** The list sorts, and does to every entry what `form` does. */
  ghost predicate Makes<F, T(!new)>(p: Pipeline<F, T>, l: seq<F>, form: T -> T) {
    && (exists i :: 0 <= i < |l| && p.sorts(l[i]))
    && (forall t :: p.cleaned(Among(l), t) == form(t))
  }

  lemma RunMakes<F(!new), T(!new)>(p: Pipeline<F, T>, l: seq<F>, states: seq<seq<T>>, form: T -> T)
    requires Lawful(p) && Runs(p, l, states) && Makes(p, l, form)
    requires DistinctNames(p.name, states[0])
    ensures SortedByName(p.name, states[|l|]) && DistinctNames(p.name, states[|l|])
    ensures forall x :: x in states[|l|] <==> x in Map(form, states[0])
  {
    var i :| 0 <= i < |l| && p.sorts(l[i]);
    RunEnds(p, l, states, i);
    assert Cleaned(p, Among(l), states[0]) == Map(form, states[0]);
  }

  /** Two archives with distinct names come out the same if and only if they have the same
      cleaned entries, whatever the order of the entries, whatever the lists of stabilizers
      that clean alike, and however the sorting algorithm breaks ties. */
  lemma SameIffSameForms<F(!new), T(!new)>(p: Pipeline<F, T>, l: seq<F>, s: seq<seq<T>>, m: seq<F>, r: seq<seq<T>>,
                                           form: T -> T)
    requires Lawful(p) && Runs(p, l, s) && Runs(p, m, r) && Makes(p, l, form) && Makes(p, m, form)
    requires DistinctNames(p.name, s[0]) && DistinctNames(p.name, r[0])
    ensures s[|l|] == r[|m|] <==> SameElements(Map(form, s[0]), Map(form, r[0]))
  {
    RunMakes(p, l, s, form);
    RunMakes(p, m, r, form);
    hide Lawful, Runs, Makes, Map;
    SortedSame(p.name, s[|l|], Map(form, s[0]), r[|m|], Map(form, r[0]));
  }

  lemma SortedSame<T(!new)>(name: T -> string, a: seq<T>, a0: seq<T>, b: seq<T>, b0: seq<T>)
    requires SortedByName(name, a) && SortedByName(name, b) && DistinctNames(name, a) && DistinctNames(name, b)
    requires (forall x :: x in a <==> x in a0) && (forall x :: x in b <==> x in b0)
    ensures a == b <==> forall x :: x in a0 <==> x in b0
  {
    if forall x :: x in a0 <==> x in b0 { SortedUnique(name, a, b); }
  }

  lemma {:induction false} CleanedTwice<F(!new), T(!new)>(p: Pipeline<F, T>, done: set<F>, more: set<F>, t: T)
    requires Lawful(p) && more <= done
    ensures p.cleaned(more, p.cleaned(done, t)) == p.cleaned(done, t)
    decreases more
  {
    if more != {} {
      var f :| f in more;
      CleanedTwice(p, done, more - {f}, t);
      assert p.step(f, p.cleaned(more - {f}, p.cleaned(done, t))) == p.cleaned(more - {f} + {f}, p.cleaned(done, t));
      assert p.step(f, p.cleaned(done, t)) == p.cleaned(done + {f}, t);
      assert done + {f} == done && more - {f} + {f} == more;
    }
  }

  /** Stabilizing the result again, with any list that cleans alike, changes nothing. */
  lemma Idempotent<F(!new), T(!new)>(p: Pipeline<F, T>, l: seq<F>, s: seq<seq<T>>, m: seq<F>, r: seq<seq<T>>,
                                     form: T -> T)
    requires Lawful(p) && Runs(p, l, s) && Runs(p, m, r) && Makes(p, l, form) && Makes(p, m, form)
    requires DistinctNames(p.name, s[0]) && r[0] == s[|l|]
    ensures r[|m|] == s[|l|]
  {
    RunMakes(p, l, s, form);
    RunMakes(p, m, r, form);
    forall k | 0 <= k < |r[0]| ensures form(r[0][k]) == r[0][k] {
      assert r[0][k] in s[|l|];
      var t := FromForm(form, s[0], r[0][k]);
      CleanedTwice(p, Among(l), Among(l), t);
    }
    assert Map(form, r[0]) == r[0];
    hide Lawful, Runs, Makes;
    SortedUnique(p.name, r[|m|], s[|l|]);
  }

  lemma FromForm<T>(form: T -> T, s: seq<T>, x: T) returns (t: T)
    requires x in Map(form, s)
    ensures t in s && x == form(t)
  {
    var c := Map(form, s);
    var k :| 0 <= k < |c| && c[k] == x;
    t := s[k];
  }

  ghost predicate SameElements<X(!new)>(a: seq<X>, b: seq<X>) {
    forall x :: x in a <==> x in b
  }

  /** When the form is made from what survives, and what survives can be read off it, two
      archives have the same forms if and only if the same survives. */
  lemma FormsFromCores<T(!new), C(!new)>(core: T -> C, stable: C -> T, form: T -> T, a: seq<T>, b: seq<T>)
    requires (forall c :: core(stable(c)) == c) && (forall t :: form(t) == stable(core(t)))
    ensures SameElements(Map(core, a), Map(core, b)) <==> SameElements(Map(form, a), Map(form, b))
  {
    if SameElements(Map(core, a), Map(core, b)) {
      CoresCarry(core, stable, form, a, b);
    }
    if SameElements(Map(form, a), Map(form, b)) {
      FormsCarry(core, stable, form, a, b);
    }
  }

  lemma CoresCarry<T(!new), C(!new)>(core: T -> C, stable: C -> T, form: T -> T, a: seq<T>, b: seq<T>)
    requires forall t :: form(t) == stable(core(t))
    requires SameElements(Map(core, a), Map(core, b))
    ensures SameElements(Map(form, a), Map(form, b))
  {
    forall x | x in Map(form, a) ensures x in Map(form, b) { CoreCarries(core, stable, form, a, b, x); }
    forall x | x in Map(form, b) ensures x in Map(form, a) { CoreCarries(core, stable, form, b, a, x); }
  }

  lemma FormsCarry<T(!new), C(!new)>(core: T -> C, stable: C -> T, form: T -> T, a: seq<T>, b: seq<T>)
    requires (forall c :: core(stable(c)) == c) && (forall t :: form(t) == stable(core(t)))
    requires SameElements(Map(form, a), Map(form, b))
    ensures SameElements(Map(core, a), Map(core, b))
  {
    forall c | c in Map(core, a) ensures c in Map(core, b) { FormCarries(core, stable, form, a, b, c); }
    forall c | c in Map(core, b) ensures c in Map(core, a) { FormCarries(core, stable, form, b, a, c); }
  }

  lemma CoreCarries<T(!new), C(!new)>(core: T -> C, stable: C -> T, form: T -> T, a: seq<T>, b: seq<T>, x: T)
    requires forall t :: form(t) == stable(core(t))
    requires (forall c :: c in Map(core, a) ==> c in Map(core, b)) && x in Map(form, a)
    ensures x in Map(form, b)
  {
    var t := FromForm(form, a, x);
    var i :| 0 <= i < |a| && a[i] == t;
    assert Map(core, a)[i] == core(t);
    assert core(t) in Map(core, a) && core(t) in Map(core, b);
    var j :| 0 <= j < |b| && Map(core, b)[j] == core(t);
    assert Map(form, b)[j] == x;
  }

  lemma FormCarries<T(!new), C(!new)>(core: T -> C, stable: C -> T, form: T -> T, a: seq<T>, b: seq<T>, c: C)
    requires (forall d :: core(stable(d)) == d) && (forall t :: form(t) == stable(core(t)))
    requires (forall x :: x in Map(form, a) ==> x in Map(form, b)) && c in Map(core, a)
    ensures c in Map(core, b)
  {
    var i :| 0 <= i < |a| && Map(core, a)[i] == c;
    assert Map(form, a)[i] == stable(c);
    assert stable(c) in Map(form, a) && stable(c) in Map(form, b);
    var j :| 0 <= j < |b| && Map(form, b)[j] == stable(c);
    assert core(stable(core(b[j]))) == core(stable(c));
    assert Map(core, b)[j] == c;
  }

  /** Stands in for slices.SortFunc by name, of which only this contract is used. */
  method SortByName<T(==)>(s: seq<T>, name: T -> string) returns (r: seq<T>)
    ensures multiset(r) == multiset(s) && SortedByName(name, r)
  {
    r := [];
    for i := 0 to |s|
      invariant multiset(r) == multiset(s[..i]) && SortedByName(name, r)
    {
      r := InsertByName(r, s[i], name);
      hide SortedByName;
      Appended(s[..i], s[i]);
      assert s[..i] + [s[i]] == s[..i + 1];
    }
    assert s[..|s|] == s;
  }

  method InsertByName<T(==)>(s: seq<T>, x: T, name: T -> string) returns (r: seq<T>)
    requires SortedByName(name, s)
    ensures multiset(r) == multiset(s) + multiset{x} && SortedByName(name, r)
  {
    var k := 0;
    while k < |s| && CompareString(name(s[k]), name(x)) <= 0
      invariant k <= |s| && forall u :: 0 <= u < k ==> CompareString(name(s[u]), name(x)) <= 0
    {
      k := k + 1;
    }
    r := s[..k] + [x] + s[k..];
    Inserted(name, s, k, x);
    hide SortedByName;
    Insertion(s[..k], x, s[k..]);
    assert s[..k] + s[k..] == s;
  }

  lemma Inserted<T>(name: T -> string, r: seq<T>, k: nat, x: T)
    requires SortedByName(name, r) && k <= |r|
    requires forall u :: 0 <= u < k ==> CompareString(name(r[u]), name(x)) <= 0
    requires k < |r| ==> CompareString(name(r[k]), name(x)) > 0
    ensures SortedByName(name, r[..k] + [x] + r[k..])
  {
    var w := r[..k] + [x] + r[k..];
    forall u, v | 0 <= u < v < |w| ensures CompareString(name(w[u]), name(w[v])) <= 0 {
      if u < k && v > k {
        assert w[u] == r[u] && w[v] == r[v - 1];
      } else if u == k {
        assert w[u] == x && w[v] == r[v - 1];
        AfterInserted(name, r, k, x, v - 1);
      }
    }
  }

  lemma AfterInserted<T>(name: T -> string, r: seq<T>, k: nat, x: T, v: nat)
    requires SortedByName(name, r) && k <= v < |r| && CompareString(name(r[k]), name(x)) > 0
    ensures CompareString(name(x), name(r[v])) <= 0
  {
    StringsAreOrdered();
    if k < v { assert CompareString(name(r[k]), name(r[v])) <= 0; }
  }
}
