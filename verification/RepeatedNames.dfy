/** Archives in which names repeat: exactly when the result of a pipeline depends on the
    input alone, and not on how the sort breaks ties (pkg/stabilize/tar.go:56-62, zip.go:42-50). */
module RepeatedNames {
  import opened Orders
  import opened Canonical
  import StableSorting

  /** Entries of one name have one form. */
  ghost predicate NamesDecide<T(!new), U(!new)>(name: T -> string, form: T -> U, s: seq<T>) {
    forall x, y :: x in s && y in s && name(x) == name(y) ==> form(x) == form(y)
  }

  ghost predicate RunsFrom<F, T>(p: Pipeline<F, T>, l: seq<F>, input: seq<T>, states: seq<seq<T>>) {
    Runs(p, l, states) && states[0] == input
  }

  /** All runs from the input end in the same archive. */
  ghost predicate Determined<F(!new), T(!new)>(p: Pipeline<F, T>, l: seq<F>, input: seq<T>) {
    forall s, r :: RunsFrom(p, l, input, s) && RunsFrom(p, l, input, r) ==> s[|l|] == r[|l|]
  }

  // ----- one form for each name leaves one order -----

  lemma SameTails<T>(a: seq<T>, b: seq<T>)
    requires a != [] && b != [] && a[0] == b[0] && multiset(a) == multiset(b)
    ensures multiset(a[1..]) == multiset(b[1..])
  {
    FirstOut(a);
    FirstOut(b);
    Cancel(multiset(a[1..]), multiset(b[1..]), a[0]);
  }

  lemma FirstOut<T>(s: seq<T>)
    requires s != []
    ensures multiset(s) == multiset(s[1..]) + multiset{s[0]}
  {
    Insertion([], s[0], s[1..]);
    assert [] + [s[0]] + s[1..] == s && [] + s[1..] == s[1..];
  }

  lemma TailOfSorted<T(!new)>(name: T -> string, s: seq<T>)
    requires s != [] && SortedByName(name, s)
    ensures SortedByName(name, s[1..])
    ensures NamesDecide(name, (x: T) => x, s) ==> NamesDecide(name, (x: T) => x, s[1..])
  {
  }

  lemma {:induction false} SortedSamePermutation<T(!new)>(name: T -> string, a: seq<T>, b: seq<T>)
    requires multiset(a) == multiset(b) && SortedByName(name, a) && SortedByName(name, b)
    requires NamesDecide(name, (x: T) => x, a)
    ensures a == b
  {
    hide SortedByName, NamesDecide;
    if a == [] {
      EmptyMultiset(b);
    } else if b == [] {
      EmptyMultiset(a);
    } else {
      FirstAgrees(name, a, b);
      SameTails(a, b);
      TailOfSorted(name, a);
      TailOfSorted(name, b);
      SortedSamePermutation(name, a[1..], b[1..]);
      assert a == [a[0]] + a[1..] && b == [b[0]] + b[1..];
    }
  }

  lemma FirstAgrees<T(!new)>(name: T -> string, a: seq<T>, b: seq<T>)
    requires multiset(a) == multiset(b) && SortedByName(name, a) && SortedByName(name, b) && a != [] && b != []
    requires NamesDecide(name, (x: T) => x, a)
    ensures a[0] == b[0]
  {
    SameMembers(a, b, a[0]);
    SameMembers(a, b, b[0]);
    assert a[0] in a && b[0] in b;
    var i :| 0 <= i < |a| && a[i] == b[0];
    var j :| 0 <= j < |b| && b[j] == a[0];
    StringsAreOrdered();
    EqualStrings(name(a[0]), name(b[0]));
    EqualStrings(name(b[0]), name(a[0]));
    assert CompareString(name(a[0]), name(a[i])) <= 0;
    assert CompareString(name(b[0]), name(b[j])) <= 0;
  }

  lemma FormsDecide<T(!new)>(name: T -> string, form: T -> T, s: seq<T>, end: seq<T>)
    requires forall t :: name(form(t)) == name(t)
    requires NamesDecide(name, form, s) && multiset(end) == multiset(Map(form, s))
    ensures NamesDecide(name, (x: T) => x, end)
  {
    forall x, y | x in end && y in end && name(x) == name(y) ensures x == y {
      SameMembers(end, Map(form, s), x);
      SameMembers(end, Map(form, s), y);
      var t := FromForm(form, s, x);
      var u := FromForm(form, s, y);
      assert name(form(t)) == name(t) && name(form(u)) == name(u);
    }
  }

  lemma DecidedIsDetermined<F(!new), T(!new)>(p: Pipeline<F, T>, l: seq<F>, form: T -> T, input: seq<T>)
    requires Lawful(p) && Makes(p, l, form) && NamesDecide(p.name, form, input)
    ensures Determined(p, l, input)
  {
    forall s, r | RunsFrom(p, l, input, s) && RunsFrom(p, l, input, r) ensures s[|l|] == r[|l|] {
      EndsAs(p, l, form, input, s);
      EndsAs(p, l, form, input, r);
      FormKeepsNames(p, l, form);
      hide Lawful, Makes, Runs, SortedByName;
      FormsDecide(p.name, form, input, s[|l|]);
      SortedSamePermutation(p.name, s[|l|], r[|l|]);
    }
  }

  lemma FormKeepsNames<F(!new), T(!new)>(p: Pipeline<F, T>, l: seq<F>, form: T -> T)
    requires Lawful(p) && Makes(p, l, form)
    ensures forall t :: p.name(form(t)) == p.name(t)
  {
    forall t ensures p.name(form(t)) == p.name(t) {
      assert p.cleaned(Among(l), t) == form(t);
    }
  }

  /** A run that sorts ends sorted, with the forms of the entries it began with. */
  lemma EndsAs<F(!new), T(!new)>(p: Pipeline<F, T>, l: seq<F>, form: T -> T, input: seq<T>, states: seq<seq<T>>)
    requires Lawful(p) && Makes(p, l, form) && RunsFrom(p, l, input, states)
    ensures SortedByName(p.name, states[|l|]) && multiset(states[|l|]) == multiset(Map(form, input))
  {
    var i :| 0 <= i < |l| && p.sorts(l[i]);
    RunSorts(p, l, states, i, |l|);
    RunCleans(p, l, states, |l|);
    assert l[..|l|] == l;
    assert Cleaned(p, Among(l), input) == Map(form, input);
  }

  /** An archive whose result is determined comes out as another one does if and only if they
      have the same entries, as often, as far as `core` goes. */
  lemma SameIffSameCores<F(!new), T(!new), C(!new)>(
    p: Pipeline<F, T>, l: seq<F>, s: seq<seq<T>>, m: seq<F>, r: seq<seq<T>>, core: T -> C, stable: C -> T, form: T -> T)
    requires Lawful(p) && Runs(p, l, s) && Runs(p, m, r) && Makes(p, l, form) && Makes(p, m, form)
    requires (forall c :: core(stable(c)) == c) && (forall t :: form(t) == stable(core(t)))
    requires NamesDecide(p.name, core, s[0])
    ensures s[|l|] == r[|m|] <==> multiset(Map(core, s[0])) == multiset(Map(core, r[0]))
  {
    EndsAs(p, l, form, s[0], s);
    EndsAs(p, m, form, r[0], r);
    FormKeepsNames(p, l, form);
    assert NamesDecide(p.name, form, s[0]);
    hide Lawful, Makes, Runs, SortedByName, NamesDecide;
    FormsDecide(p.name, form, s[0], s[|l|]);
    CoresAndForms(core, stable, form, s[0], r[0]);
    if multiset(Map(form, s[0])) == multiset(Map(form, r[0])) {
      SortedSamePermutation(p.name, s[|l|], r[|m|]);
    }
  }

  lemma CoresAndForms<T(!new), C(!new)>(core: T -> C, stable: C -> T, form: T -> T, a: seq<T>, b: seq<T>)
    requires (forall c :: core(stable(c)) == c) && (forall t :: form(t) == stable(core(t)))
    ensures multiset(Map(core, a)) == multiset(Map(core, b)) <==> multiset(Map(form, a)) == multiset(Map(form, b))
  {
    assert Map(form, a) == Map(stable, Map(core, a)) && Map(form, b) == Map(stable, Map(core, b));
    assert Map(core, a) == Map(core, Map(form, a)) && Map(core, b) == Map(core, Map(form, b));
    if multiset(Map(core, a)) == multiset(Map(core, b)) { MapMultiset(stable, Map(core, a), Map(core, b)); }
    if multiset(Map(form, a)) == multiset(Map(form, b)) { MapMultiset(core, Map(form, a), Map(form, b)); }
  }

  // ----- a run for every order the sort may choose -----

  ghost predicate SortsBy<F, T>(p: Pipeline<F, T>, l: seq<F>, k: nat)
    requires k <= |l|
  {
    exists i :: 0 <= i < k && p.sorts(l[i])
  }

  /** The archive after k stabilizers if every sort puts the entries in this order. */
  ghost function StateAt<F, T>(p: Pipeline<F, T>, l: seq<F>, input: seq<T>, order: seq<T>, k: nat): seq<T>
    requires k <= |l|
  {
    Cleaned(p, Among(l[..k]), if SortsBy(p, l, k) then order else input)
  }

  lemma CleanedStep<F(!new), T(!new)>(p: Pipeline<F, T>, f: F, done: set<F>, s: seq<T>)
    requires Lawful(p)
    ensures Cleaned(p, done + {f}, s) == Map(t => p.step(f, t), Cleaned(p, done, s))
    ensures p.sorts(f) ==> Cleaned(p, done + {f}, s) == Cleaned(p, done, s)
  {
    forall i | 0 <= i < |s|
      ensures Cleaned(p, done + {f}, s)[i] == p.step(f, Cleaned(p, done, s)[i])
      ensures p.sorts(f) ==> Cleaned(p, done + {f}, s)[i] == Cleaned(p, done, s)[i]
    {
      assert p.step(f, p.cleaned(done, s[i])) == p.cleaned(done + {f}, s[i]);
    }
    assert Cleaned(p, done + {f}, s) == Map(t => p.step(f, t), Cleaned(p, done, s));
  }

  lemma CleanedSorted<F(!new), T(!new)>(p: Pipeline<F, T>, done: set<F>, order: seq<T>)
    requires Lawful(p) && SortedByName(p.name, order)
    ensures SortedByName(p.name, Cleaned(p, done, order))
  {
    var c := Cleaned(p, done, order);
    forall i, j | 0 <= i < j < |c| ensures CompareString(p.name(c[i]), p.name(c[j])) <= 0 {
      assert p.name(c[i]) == p.name(order[i]) && p.name(c[j]) == p.name(order[j]);
    }
  }

  lemma StateStep<F(!new), T(!new)>(p: Pipeline<F, T>, l: seq<F>, input: seq<T>, order: seq<T>, k: nat)
    requires Lawful(p) && multiset(order) == multiset(input) && SortedByName(p.name, order) && k < |l|
    ensures Step(p, l[k], StateAt(p, l, input, order, k), StateAt(p, l, input, order, k + 1))
  {
    var done := Among(l[..k]);
    AmongOneMore(l, k + 1);
    CleanedStep(p, l[k], done, input);
    CleanedStep(p, l[k], done, order);
    if p.sorts(l[k]) {
      MapMultiset(t => p.cleaned(done, t), input, order);
      CleanedSorted(p, done, order);
    }
    hide Lawful, Map, SortedByName, Among;
  }

  lemma RunWith<F(!new), T(!new)>(p: Pipeline<F, T>, l: seq<F>, input: seq<T>, order: seq<T>)
    returns (states: seq<seq<T>>)
    requires Lawful(p) && multiset(order) == multiset(input) && SortedByName(p.name, order)
    ensures RunsFrom(p, l, input, states) && states[|l|] == StateAt(p, l, input, order, |l|)
  {
    states := seq(|l| + 1, k requires 0 <= k <= |l| => StateAt(p, l, input, order, k));
    forall k | 0 <= k < |l| ensures Step(p, l[k], states[k], states[k + 1]) {
      StateStep(p, l, input, order, k);
    }
    CleanedByNone(p, input);
    NoneAmong(l[..0]);
  }

  lemma ASortedOrder<T(!new)>(name: T -> string, s: seq<T>) returns (order: seq<T>)
    ensures multiset(order) == multiset(s) && SortedByName(name, order)
  {
    var byName := (a: T, b: T) => CompareString(name(a), name(b));
    StringsAreOrdered();
    KeyOrders(name, CompareString, byName);
    StableSorting.StableSortSorts(byName, s);
    order := StableSorting.StableSort(byName, s);
    hide TotalPreorder;
    forall i, j | 0 <= i < j < |order| ensures CompareString(name(order[i]), name(order[j])) <= 0 {
      assert byName(order[i], order[j]) <= 0;
    }
  }

  /** The same order with two entries of one name exchanged. */
  lemma Exchanged<T(!new)>(name: T -> string, order: seq<T>, i: nat, j: nat)
    requires i < |order| && j < |order| && SortedByName(name, order) && name(order[i]) == name(order[j])
    ensures var other := order[i := order[j]][j := order[i]];
            multiset(other) == multiset(order) && SortedByName(name, other)
  {
    var other := order[i := order[j]][j := order[i]];
    forall u, v | 0 <= u < v < |other| ensures CompareString(name(other[u]), name(other[v])) <= 0 {
      assert name(other[u]) == name(order[u]) && name(other[v]) == name(order[v]);
    }
  }

  lemma TwoResults<F(!new), T(!new)>(p: Pipeline<F, T>, l: seq<F>, form: T -> T, input: seq<T>, x: T, y: T)
    requires Lawful(p) && Makes(p, l, form)
    requires x in input && y in input && p.name(x) == p.name(y) && form(x) != form(y)
    ensures !Determined(p, l, input)
  {
    var order := ASortedOrder(p.name, input);
    SameMembers(order, input, x);
    SameMembers(order, input, y);
    var i :| 0 <= i < |order| && order[i] == x;
    var j :| 0 <= j < |order| && order[j] == y;
    var other := order[i := y][j := x];
    Exchanged(p.name, order, i, j);
    assert Map(form, order)[i] != Map(form, other)[i];
    hide Lawful, Makes, SortedByName, Map, StateAt, Runs;
    var s := RunWith(p, l, input, order);
    var r := RunWith(p, l, input, other);
    EndsInOrder(p, l, form, input, order);
    EndsInOrder(p, l, form, input, other);
  }

  lemma EndsInOrder<F(!new), T(!new)>(p: Pipeline<F, T>, l: seq<F>, form: T -> T, input: seq<T>, order: seq<T>)
    requires Makes(p, l, form)
    ensures StateAt(p, l, input, order, |l|) == Map(form, order)
  {
    assert l[..|l|] == l && SortsBy(p, l, |l|);
    assert Cleaned(p, Among(l), order) == Map(form, order);
  }

  /** The input determines the result if and only if entries of one name have one form. */
  lemma DeterminedIff<F(!new), T(!new)>(p: Pipeline<F, T>, l: seq<F>, form: T -> T, input: seq<T>)
    requires Lawful(p) && Makes(p, l, form)
    ensures Determined(p, l, input) <==> NamesDecide(p.name, form, input)
  {
    if NamesDecide(p.name, form, input) {
      DecidedIsDetermined(p, l, form, input);
    } else {
      var x, y :| x in input && y in input && p.name(x) == p.name(y) && form(x) != form(y);
      TwoResults(p, l, form, input, x, y);
    }
  }
}
