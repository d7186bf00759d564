/** Exactly when a served row is still served later, as itself or newer, whatever rollups
    overlap (internal/docdb/cache.go:137-232). */
module MonotoneReads {
  import opened Upserts
  import opened Convergence
  import opened Segments
  import opened Replication
  import opened ReplicationProofs
  import opened ReplicationTheorems
  import opened Options

  /** The base holds d or newer, or one of the segments applied over it does. */
  ghost predicate Supplies(store: Store, b: Base, applied: Option<int>, d: Rec) {
    || Reflects(b.rows, d)
    || exists n :: n in AppliedNames(store, b.watermark, applied) && n in store && Carries(store[n].recs, d)
  }

  lemma {:induction false} ReplayReflectsIff(rows: Rows, store: Store, names: seq<int>, d: Rec)
    requires WellKeyed(rows)
    ensures Reflects(Replay(rows, store, names), d)
       <==> Reflects(rows, d) || exists n :: n in names && n in store && Carries(store[n].recs, d)
  {
    if Reflects(rows, d) || exists n :: n in names && n in store && Carries(store[n].recs, d) {
      ReplayReflects(rows, store, names, d);
    }
    if Reflects(Replay(rows, store, names), d) {
      FoldAdvances(rows, RecordsOf(store, names));
      var r := Replay(rows, store, names)[d.key];
      if r in RecordsOf(store, names) {
        RecordsHave(store, names);
        var n :| n in names && n in store && r in store[n].recs;
        assert Carries(store[n].recs, d);
      }
    }
  }

  lemma ReflectedIff(cfg: Config, s: System, d: Rec)
    requires Inv(cfg, s) && s.cache.Some?
    ensures s.origin.Some?
    ensures Reflects(s.cache.value.rows, d) <==> Supplies(s.store, s.origin.value, s.cache.value.applied, d)
  {
    SuppliedIff(s.store, s.origin.value, s.cache.value, d);
  }

  /** Between any two states of a run: a row served at i is served at j, as itself or at least
      as new, if and only if the base then in use or a segment applied over it supplies it. */
  lemma RowSurvivesIff(cfg: Config, states: seq<System>, trace: seq<Action>, i: nat, j: nat, k: Key)
    requires ValidConfig(cfg) && Behaves(cfg, states, trace) && i <= j <= |trace|
    requires states[i].cache.Some? && k in states[i].cache.value.rows
    ensures states[j].cache.Some? && states[j].origin.Some?
    ensures Advances(states[i].cache.value.rows, states[j].cache.value.rows, k)
       <==> Supplies(states[j].store, states[j].origin.value, states[j].cache.value.applied,
                     states[i].cache.value.rows[k])
  {
    StillServing(cfg, states, trace, i, j);
    AlwaysInv(cfg, states, trace, i);
    AlwaysInv(cfg, states, trace, j);
    ReflectedIff(cfg, states[j], states[i].cache.value.rows[k]);
    CacheIsWellKeyed(states[i].store, states[i].origin.value, states[i].cache.value);
    hide Inv, Behaves, Supplies;
  }

  lemma NextState(cfg: Config, states: seq<System>, trace: seq<Action>, i: nat)
    requires Behaves(cfg, states, trace) && i < |trace|
    ensures |states| == |trace| + 1
    ensures Enabled(cfg, states[i], trace[i]) && states[i + 1] == Do(cfg, states[i], trace[i])
  {
  }

  lemma {:induction false} StillServing(cfg: Config, states: seq<System>, trace: seq<Action>, i: nat, j: nat)
    requires Behaves(cfg, states, trace) && i <= j <= |trace| && states[i].cache.Some?
    ensures states[j].cache.Some?
    decreases j
  {
    RunLength(cfg, states, trace);
    hide Behaves;
    if i < j {
      StillServing(cfg, states, trace, i, j - 1);
      NextServes(cfg, states, trace, j - 1);
    }
  }

  lemma NextServes(cfg: Config, states: seq<System>, trace: seq<Action>, i: nat)
    requires Behaves(cfg, states, trace) && i < |trace| && states[i].cache.Some?
    ensures |states| == |trace| + 1 && states[i + 1].cache.Some?
  {
    NextState(cfg, states, trace, i);
    hide Behaves, Enabled, Do;
    KeepsServing(cfg, states[i], trace[i]);
  }

  lemma KeepsServing(cfg: Config, s: System, a: Action)
    requires Enabled(cfg, s, a) && s.cache.Some?
    ensures Do(cfg, s, a).cache.Some?
  {
    hide Scans, Hydrate, ApplySegment, NewSegments, Since;
  }

  // ----- step by step -----

  /** The step is no rehydration over a served row of k, or one whose base, with the segments
      replayed over it, supplies that row. */
  ghost predicate Keeps(s: System, a: Action, k: Key) {
    a.SyncSwap? && s.sync.Replayed? && s.cache.Some? && k in s.cache.value.rows ==>
      Supplies(s.store, s.sync.base, s.sync.next.applied, s.cache.value.rows[k])
  }

  /** A step takes a served row away, or back to an older stamp, exactly when it is a
      rehydration that does not keep it. */
  lemma RowRegressesIff(cfg: Config, s: System, a: Action, k: Key)
    requires ValidConfig(cfg) && Inv(cfg, s) && Enabled(cfg, s, a) && s.cache.Some?
    ensures Do(cfg, s, a).cache.Some?
    ensures Advances(s.cache.value.rows, Do(cfg, s, a).cache.value.rows, k) <==> Keeps(s, a, k)
  {
    if a.SyncSwap? {
      SwapRegressesIff(cfg, s, k);
    } else {
      hide Advances, Inv;
      RowsNeverRegress(cfg, s, a, k);
    }
  }

  lemma SwapRegressesIff(cfg: Config, s: System, k: Key)
    requires Inv(cfg, s) && Enabled(cfg, s, SyncSwap) && s.cache.Some?
    ensures Advances(s.cache.value.rows, s.sync.next.rows, k) <==> Keeps(s, SyncSwap, k)
  {
    assert CacheOk(s.store, s.sync.base, s.sync.next);
    CacheIsWellKeyed(s.store, s.origin.value, s.cache.value);
    if k in s.cache.value.rows {
      assert WellKeyed(s.sync.base.rows);
      hide Inv, Enabled, CacheOk, Supplies;
      SuppliedIff(s.store, s.sync.base, s.sync.next, s.cache.value.rows[k]);
    }
  }

  lemma SuppliedIff(store: Store, b: Base, c: CacheState, d: Rec)
    requires WellKeyed(b.rows) && CacheOk(store, b, c)
    ensures Reflects(c.rows, d) <==> Supplies(store, b, c.applied, d)
  {
    ReplayReflectsIff(b.rows, store, AppliedNames(store, b.watermark, c.applied), d);
    hide Replay, AppliedNames;
  }

  /** The row of k is served at n as at m, or newer. */
  ghost predicate AdvancesFrom(states: seq<System>, m: nat, n: nat, k: Key)
    requires m < |states| && n < |states|
  {
    && states[m].cache.Some? && states[n].cache.Some?
    && Advances(states[m].cache.value.rows, states[n].cache.value.rows, k)
  }

  ghost predicate StepAdvances(states: seq<System>, m: nat, k: Key)
    requires m + 1 < |states|
  {
    AdvancesFrom(states, m, m + 1, k)
  }

  /** Monotone reads, exactly. From state i to state j no query finds the row of k gone or
      older than an earlier query did, if and only if every rehydration in between keeps it. */
  lemma MonotoneReadsIff(cfg: Config, states: seq<System>, trace: seq<Action>, i: nat, j: nat, k: Key)
    requires ValidConfig(cfg) && Behaves(cfg, states, trace) && i <= j <= |trace|
    requires states[i].cache.Some?
    ensures |states| == |trace| + 1
    ensures (forall m, n :: i <= m <= n <= j ==> AdvancesFrom(states, m, n, k))
       <==> forall m :: i <= m < j ==> Keeps(states[m], trace[m], k)
  {
    forall m | i <= m < j ensures StepAdvances(states, m, k) <==> Keeps(states[m], trace[m], k) {
      StepAdvancesIff(cfg, states, trace, i, m, k);
    }
    hide Behaves, Keeps, AdvancesFrom;
    if forall m :: i <= m < j ==> Keeps(states[m], trace[m], k) {
      forall m, n | i <= m <= n <= j ensures AdvancesFrom(states, m, n, k) {
        StillServing(cfg, states, trace, i, m);
        StepsAdvance(states, m, n, k);
      }
    }
  }

  lemma StepAdvancesIff(cfg: Config, states: seq<System>, trace: seq<Action>, i: nat, m: nat, k: Key)
    requires ValidConfig(cfg) && Behaves(cfg, states, trace) && i <= m < |trace| && states[i].cache.Some?
    ensures |states| == |trace| + 1
    ensures StepAdvances(states, m, k) <==> Keeps(states[m], trace[m], k)
  {
    StillServing(cfg, states, trace, i, m);
    AlwaysInv(cfg, states, trace, m);
    NextState(cfg, states, trace, m);
    hide Inv, Behaves, Enabled, Do, Keeps, Advances;
    RowRegressesIff(cfg, states[m], trace[m], k);
  }

  lemma {:induction false} StepsAdvance(states: seq<System>, m: nat, n: nat, k: Key)
    requires m <= n < |states| && states[m].cache.Some?
    requires forall x :: m <= x < n ==> StepAdvances(states, x, k)
    ensures AdvancesFrom(states, m, n, k)
    decreases n
  {
    if m < n {
      StepsAdvance(states, m, n - 1, k);
      assert StepAdvances(states, n - 1, k);
    }
  }
}
