/** What the replication protocol guarantees in every reachable state. */
module ReplicationTheorems {
  import opened Upserts
  import opened Convergence
  import opened Segments
  import opened Replication
  import opened ReplicationProofs
  import opened ReplicationOrder
  import opened Options

  /** Replaying segments over rows that have d, or over segments that carry it, reflects d. */
  lemma ReplayReflects(rows: Rows, store: Store, names: seq<int>, d: Rec)
    requires WellKeyed(rows)
    requires Reflects(rows, d) || exists n :: n in names && n in store && Carries(store[n].recs, d)
    ensures Reflects(Replay(rows, store, names), d)
  {
    FoldAdvances(rows, RecordsOf(store, names));
    if !Reflects(rows, d) {
      var n :| n in names && n in store && Carries(store[n].recs, d);
      var r :| r in store[n].recs && r.key == d.key && Wins(r.stamp, d.stamp);
      RecordsHave(store, names);
      assert Reflects(Replay(rows, store, names), r);
    } else {
      assert Reflects(Replay(rows, store, names), rows[d.key]);
    }
  }

  /** The slack argument: a record in a segment named before the replay window was
      durable before the base's watermark was taken. */
  lemma OlderSegmentsAreInTheBase(cfg: Config, now: Time, durable: map<Rec, Time>, horizon: Time, b: Base, n: int,
                                  seg: Segment, r: Rec)
    requires ValidConfig(cfg) && BaseOk(now, durable, horizon, b) && SegmentOk(cfg, now, durable, n, seg)
    requires n < FirstName(b.watermark) && r in seg.recs
    ensures r in b.seen && Reflects(b.rows, r)
  {
    assert durable[r] <= seg.now + cfg.scan;
    assert seg.now < (n + 1) * SECOND <= FirstName(b.watermark) * SECOND <= b.watermark - CACHE_SLACK;
  }

  lemma AppliedHas(store: Store, watermark: Time, a: int, m: int)
    requires m in store && FirstName(watermark) <= m <= a
    ensures m in AppliedNames(store, watermark, Some(a))
  {
    SortedLists(set k | k in store && FirstName(watermark) <= k <= a);
  }

  lemma CarriedReflects(
    cfg: Config, now: Time, durable: map<Rec, Time>, store: Store, horizon: Time, b: Base, c: CacheState, d: Rec,
        m: int)
    requires ValidConfig(cfg) && BaseOk(now, durable, horizon, b) && SegmentsOk(cfg, now, durable, store)
    requires CacheOk(store, b, c)
    requires m in store && Carries(store[m].recs, d)
    requires FirstName(c.watermark) <= m ==> c.applied.Some? && m <= c.applied.value
    ensures Reflects(c.rows, d)
  {
    var r :| r in store[m].recs && r.key == d.key && Wins(r.stamp, d.stamp);
    if m < FirstName(c.watermark) {
      assert SegmentOk(cfg, now, durable, m, store[m]);
      OlderSegmentsAreInTheBase(cfg, now, durable, horizon, b, m, store[m], r);
      assert Reflects(b.rows, d);
    } else {
      AppliedHas(store, c.watermark, c.applied.value, m);
    }
    ReplayReflects(b.rows, store, AppliedNames(store, c.watermark, c.applied), d);
  }

  /** A covered write is in the cache once every segment in its window up to n is applied. */
  lemma CoveredReflects(cfg: Config, s: System, d: Rec, n: int)
    requires ValidConfig(cfg) && Inv(cfg, s) && s.cache.Some?
    requires Covered(s.durable, s.store, s.horizon, d, n)
    requires forall m :: m in s.store && FirstName(s.cache.value.watermark) <= m <= n ==>
               s.cache.value.applied.Some? && m <= s.cache.value.applied.value
    ensures Reflects(s.cache.value.rows, d)
  {
    var c, b := s.cache.value, s.origin.value;
    assert BaseOk(s.now, s.durable, s.horizon, b) && CacheOk(s.store, b, c);
    if m :| m in s.store && m <= n && Carries(s.store[m].recs, d) {
      CarriedReflects(cfg, s.now, s.durable, s.store, s.horizon, b, c, d, m);
    } else {
      assert Reflects(b.rows, d);
      ReplayReflects(b.rows, s.store, AppliedNames(s.store, c.watermark, c.applied), d);
    }
  }

  /** No lost update.  In every state of every run: once the cache has applied a
      segment, it reflects every write with a scan clock that was durable when that
      segment's run scanned the write's table. */
  lemma NoLostUpdate(cfg: Config, states: seq<System>, trace: seq<Action>, i: nat, d: Rec)
    requires ValidConfig(cfg) && Behaves(cfg, states, trace) && i <= |trace|
    requires states[i].cache.Some? && states[i].cache.value.applied.Some?
    requires ScanClock(cfg, d).Val?
    ensures var s, c := states[i], states[i].cache.value;
            c.applied.value in s.store && (Saw(s.store[c.applied.value].saw, d) ==> Reflects(c.rows, d))
  {
    AlwaysInv(cfg, states, trace, i);
    var s, c := states[i], states[i].cache.value;
    assert CacheOk(s.store, s.origin.value, c);
    if Saw(s.store[c.applied.value].saw, d) {
      CoveredReflects(cfg, s, d, c.applied.value);
    }
  }

  lemma NothingNew(store: Store, applied: Option<int>, watermark: Time)
    requires NewSegments(store, applied, watermark) == []
    ensures forall m :: m in store && FirstName(watermark) <= m ==> applied.Some? && m <= applied.value
  {
    match applied
    case None =>
      var all := set k | k in store && k >= FirstName(watermark);
      LastIsGreatest(all);
      assert forall m :: m in store && FirstName(watermark) <= m ==> m in all;
    case Some(a) =>
      var all := set k | k in store && k >= a && k != a;
      LastIsGreatest(all);
      assert forall m :: m in store && m > a ==> m in all;
  }

  /** The same for the last completed run, even one that found nothing to write:
      a cache that has applied all there is reflects what that run's scans came after. */
  lemma CaughtUpReflectsLastRun(cfg: Config, states: seq<System>, trace: seq<Action>, i: nat, d: Rec)
    requires ValidConfig(cfg) && Behaves(cfg, states, trace) && i <= |trace|
    requires states[i].cache.Some? && NewSegments(states[i].store, states[i].cache.value.applied,
                                                  states[i].cache.value.watermark) == []
    requires Saw(states[i].covered, d) && ScanClock(cfg, d).Val?
    ensures Reflects(states[i].cache.value.rows, d)
  {
    AlwaysInv(cfg, states, trace, i);
    var s, c := states[i], states[i].cache.value;
    var n :| (n in s.store || s.store == map[]) && Covered(s.durable, s.store, s.horizon, d, n);
    NothingNew(s.store, c.applied, c.watermark);
    CoveredReflects(cfg, s, d, n);
  }

  /** Every state a query observes is the upsert fold, in name order, of one base
      and a prefix of the segments from its slack window on. */
  lemma QueryVisibility(cfg: Config, states: seq<System>, trace: seq<Action>, i: nat) returns (k: nat)
    requires ValidConfig(cfg) && Behaves(cfg, states, trace) && i <= |trace|
    requires states[i].cache.Some?
    ensures states[i].origin.Some?
    ensures var s, c, b := states[i], states[i].cache.value, states[i].origin.value;
            var names := ListSegments(s.store, FirstName(b.watermark));
            k <= |names| && c.rows == Replay(b.rows, s.store, names[..k])
            && c.applied == (if k == 0 then None else Some(names[k - 1]))
  {
    AlwaysInv(cfg, states, trace, i);
    var s, c, b := states[i], states[i].cache.value, states[i].origin.value;
    assert CacheOk(s.store, b, c);
    k := PrefixLength(s.store, b, c);
  }

  /** How much of the listing past the base's slack window a cache has applied. */
  lemma PrefixLength(store: Store, b: Base, c: CacheState) returns (k: nat)
    requires CacheOk(store, b, c)
    ensures var names := ListSegments(store, FirstName(b.watermark));
            k <= |names| && c.rows == Replay(b.rows, store, names[..k])
            && c.applied == (if k == 0 then None else Some(names[k - 1]))
  {
    hide Replay, Sorted;
    var all := set n | n in store && n >= FirstName(b.watermark);
    var names := Sorted(all);
    match c.applied
    case None => k := 0;
    case Some(a) =>
      SortedLists(all);
      assert a in names;
      var j :| 0 <= j < |names| && names[j] == a;
      SortedPrefix(all, j, set n | n in store && FirstName(b.watermark) <= n <= a);
      k := j + 1;
  }

  /** Freshness is honest: every write with a scan clock durable before that time is reflected. */
  lemma FreshnessIsComplete(cfg: Config, states: seq<System>, trace: seq<Action>, i: nat, d: Rec)
    requires ValidConfig(cfg) && Behaves(cfg, states, trace) && i <= |trace|
    requires states[i].cache.Some? && d in states[i].durable && ScanClock(cfg, d).Val?
    requires states[i].durable[d] < Freshness(states[i].cache.value)
    ensures Reflects(states[i].cache.value.rows, d)
  {
    AlwaysInv(cfg, states, trace, i);
    var s, c, b := states[i], states[i].cache.value, states[i].origin.value;
    assert CacheOk(s.store, b, c) && BaseOk(s.now, s.durable, s.horizon, b);
    match c.applied
    case Some(n) =>
      assert SegmentOk(cfg, s.now, s.durable, n, s.store[n]);
      assert Saw(s.store[n].saw, d);
      CoveredReflects(cfg, s, d, n);
    case None =>
      assert d in b.seen;
      ReplayReflects(b.rows, s.store, [], d);
  }

  // ----- what queries see over time -----

  /** The segment a step makes the newest applied one. */
  function NextApplied(s: System, a: Action): Option<int> {
    if a.SyncApply? && s.sync.Applying? && s.sync.todo != [] then Some(s.sync.todo[0])
    else if a.SyncSwap? && s.sync.Replayed? then s.sync.next.applied
    else None
  }

  lemma AppliedAdvances(store: Store, c: CacheState, todo: seq<int>)
    requires TodoOk(store, c, todo) && todo != []
    requires c.applied.Some? && c.applied.value in store && c.applied.value >= FirstName(c.watermark)
    ensures c.applied.value < todo[0]
  {
    var done := AppliedNames(store, c.watermark, c.applied);
    var first, last := FirstName(c.watermark), todo[|todo| - 1];
    SortedLists(set n | n in store && first <= n <= c.applied.value);
    SortedLists(set n | n in store && first <= n <= last);
    assert c.applied.value in done;
    var j :| 0 <= j < |done| && done[j] == c.applied.value;
    assert (done + todo)[j] == c.applied.value && (done + todo)[|done|] == todo[0];
  }

  lemma SwapFreshness(store: Store, b: Base, c: CacheState, b': Base, next: CacheState)
    requires CacheOk(store, b, c) && CacheOk(store, b', next) && CatchesUp(c, next)
    ensures Freshness(next) < Freshness(c) <==> c.applied.None? && Freshness(next) < c.watermark
  {}

  lemma ApplyFreshness(store: Store, b: Base, c: CacheState, todo: seq<int>, recs: seq<Rec>)
    requires CacheOk(store, b, c) && TodoOk(store, c, todo) && todo != []
    ensures Freshness(ApplySegment(c, todo[0], recs)) < Freshness(c)
       <==> c.applied.None? && SegmentTime(todo[0]) < c.watermark
  {
    if c.applied.Some? {
      AppliedAdvances(store, c, todo);
    }
  }

  /** Only a swap and an applied segment change what is served. */
  lemma OtherStepsKeepServing(cfg: Config, s: System, a: Action)
    requires Enabled(cfg, s, a) && s.cache.Some? && !a.SyncApply? && !a.SyncSwap?
    ensures var t := Do(cfg, s, a);
            t.cache.Some? && t.cache.value == s.cache.value.(refusedTag := t.cache.value.refusedTag)
  {}

  /** Freshness is documented as a watermark that segments advance.  A step takes it back
      exactly when no segment has been applied over the served base, and either the first
      one applied is named before the served watermark (a delta run that started earlier
      but landed later) or the base is replaced by one of an older watermark with no
      segment to replay. */
  lemma FreshnessGoesBackIff(cfg: Config, s: System, a: Action)
    requires ValidConfig(cfg) && Inv(cfg, s) && Enabled(cfg, s, a) && s.cache.Some?
    ensures Do(cfg, s, a).cache.Some?
    ensures Freshness(Do(cfg, s, a).cache.value) < Freshness(s.cache.value)
       <==> && s.cache.value.applied.None?
            && match NextApplied(s, a)
               case Some(n) => SegmentTime(n) < s.cache.value.watermark
               case None => a.SyncSwap? && s.sync.base.watermark < s.cache.value.watermark
  {
    if a.SyncApply? {
      ApplyFreshness(s.store, s.origin.value, s.cache.value, s.sync.todo, s.store[s.sync.todo[0]].recs);
    } else if a.SyncSwap? {
      SwapFreshness(s.store, s.origin.value, s.cache.value, s.sync.base, s.sync.next);
    } else {
      OtherStepsKeepServing(cfg, s, a);
    }
  }

  /** When rollups do not overlap only the first of the two can happen. */
  lemma OrderedBasesAdvance(cfg: Config, states: seq<System>, trace: seq<Action>, i: nat)
    requires ValidConfig(cfg) && Behaves(cfg, states, trace) && RollupsApart(states, trace) && i < |trace|
    requires states[i].cache.Some? && trace[i].SyncSwap?
    ensures states[i].cache.value.watermark <= states[i].sync.base.watermark
  {
    AlwaysInv(cfg, states, trace, i);
    AlwaysOrdered(cfg, states, trace, i);
    assert CacheOk(states[i].store, states[i].origin.value, states[i].cache.value);
  }

  /** A row served over one base is served, as itself or newer, over a later base
      rehydrated to at least the same segments. */
  lemma SwapKeepsRow(
    cfg: Config, now: Time, durable: map<Rec, Time>, store: Store, horizon: Time,
    b: Base, c: CacheState, b': Base, next: CacheState, r: Rec)
    requires ValidConfig(cfg) && BaseOk(now, durable, horizon, b) && BaseOk(now, durable, horizon, b')
    requires SegmentsOk(cfg, now, durable, store)
    requires CacheOk(store, b, c) && CacheOk(store, b', next) && NotNewer(b, b') && CatchesUp(c, next)
    requires r.key in c.rows && c.rows[r.key] == r
    ensures Reflects(next.rows, r)
  {
    var names := AppliedNames(store, c.watermark, c.applied);
    FoldAdvances(b.rows, RecordsOf(store, names));
    if r in RecordsOf(store, names) {
      RecordsHave(store, names);
      var n :| n in names && n in store && r in store[n].recs;
      assert n <= c.applied.value by {
        SortedLists(set m | m in store && FirstName(c.watermark) <= m <= c.applied.value);
      }
      assert Carries(store[n].recs, r);
      CarriedReflects(cfg, now, durable, store, horizon, b', next, r, n);
    } else {
      assert b.rows[r.key] == r;
      assert Reflects(b'.rows, r);
      ReplayReflects(b'.rows, store, AppliedNames(store, next.watermark, next.applied), r);
    }
  }

  lemma CacheIsWellKeyed(store: Store, b: Base, c: CacheState)
    requires WellKeyed(b.rows) && CacheOk(store, b, c)
    ensures WellKeyed(c.rows)
  {
    FoldAdvances(b.rows, RecordsOf(store, AppliedNames(store, c.watermark, c.applied)));
  }

  /** The row of k is still there, as itself or at least as new. */
  ghost predicate Advances(before: Rows, after: Rows, k: Key) {
    k in before ==> k in after && Wins(after[k].stamp, before[k].stamp)
  }

  /** A rehydration replaces the served base by one that is not older. */
  ghost predicate SwapsInOrder(s: System, a: Action) {
    a.SyncSwap? ==> NoneNewer(s.origin, SyncBase(s.sync))
  }

  lemma SwapAdvances(
    cfg: Config, now: Time, durable: map<Rec, Time>, store: Store, horizon: Time,
    b: Base, c: CacheState, b': Base, next: CacheState, k: Key)
    requires ValidConfig(cfg) && BaseOk(now, durable, horizon, b) && BaseOk(now, durable, horizon, b')
    requires SegmentsOk(cfg, now, durable, store)
    requires CacheOk(store, b, c) && CacheOk(store, b', next) && NotNewer(b, b') && CatchesUp(c, next)
    ensures Advances(c.rows, next.rows, k)
  {
    if k in c.rows {
      CacheIsWellKeyed(store, b, c);
      SwapKeepsRow(cfg, now, durable, store, horizon, b, c, b', next, c.rows[k]);
    }
  }

  lemma SegmentAdvances(store: Store, b: Base, c: CacheState, n: int, recs: seq<Rec>, k: Key)
    requires WellKeyed(b.rows) && CacheOk(store, b, c)
    ensures Advances(c.rows, ApplySegment(c, n, recs).rows, k)
  {
    CacheIsWellKeyed(store, b, c);
    FoldAdvances(c.rows, recs);
  }

  /** Monotone reads: no step takes a served row away or back to an older stamp; a
      rehydration does not if its base is not older than the served one. */
  lemma RowsNeverRegress(cfg: Config, s: System, a: Action, k: Key)
    requires ValidConfig(cfg) && Inv(cfg, s) && Enabled(cfg, s, a) && s.cache.Some? && SwapsInOrder(s, a)
    ensures Do(cfg, s, a).cache.Some?
    ensures Advances(s.cache.value.rows, Do(cfg, s, a).cache.value.rows, k)
  {
    hide Advances, SrcOk;
    var c := s.cache.value;
    if a.SyncApply? {
      SegmentAdvances(s.store, s.origin.value, c, s.sync.todo[0], s.store[s.sync.todo[0]].recs, k);
    } else if a.SyncSwap? {
      SwapAdvances(cfg, s.now, s.durable, s.store, s.horizon, s.origin.value, c, s.sync.base, s.sync.next, k);
    } else {
      OtherStepsKeepServing(cfg, s, a);
      SameRowsAdvance(c.rows, k);
    }
  }

  lemma SameRowsAdvance(rows: Rows, k: Key)
    ensures Advances(rows, rows, k)
  {
  }

  lemma AdvancesTransitive(x: Rows, y: Rows, z: Rows, k: Key)
    requires Advances(x, y, k) && Advances(y, z, k)
    ensures Advances(x, z, k)
  {
  }

  /** Over whole runs in which rollups do not overlap: once a row is served, every later
      state serves that row's key, as that row or something at least as new, through any
      number of rehydrations. */
  lemma {:induction false} ServedRowsOnlyAdvance(cfg: Config, states: seq<System>, trace: seq<Action>, i: nat, j: nat,
                                                 k: Key)
    requires ValidConfig(cfg) && Behaves(cfg, states, trace) && RollupsApart(states, trace) && i <= j <= |trace|
    requires states[i].cache.Some?
    ensures states[j].cache.Some? && Advances(states[i].cache.value.rows, states[j].cache.value.rows, k)
  {
    RunLength(cfg, states, trace);
    hide Advances, Behaves, RollupsApart;
    if i < j {
      ServedRowsOnlyAdvance(cfg, states, trace, i, j - 1, k);
      NextAdvances(cfg, states, trace, j - 1, k);
      AdvancesTransitive(states[i].cache.value.rows, states[j - 1].cache.value.rows, states[j].cache.value.rows, k);
    } else {
      SameRowsAdvance(states[i].cache.value.rows, k);
    }
  }

  lemma RunLength(cfg: Config, states: seq<System>, trace: seq<Action>)
    requires Behaves(cfg, states, trace)
    ensures |states| == |trace| + 1
  {
  }

  lemma NextAdvances(cfg: Config, states: seq<System>, trace: seq<Action>, i: nat, k: Key)
    requires ValidConfig(cfg) && Behaves(cfg, states, trace) && RollupsApart(states, trace) && i < |trace|
    requires states[i].cache.Some?
    ensures states[i + 1].cache.Some? && Advances(states[i].cache.value.rows, states[i + 1].cache.value.rows, k)
  {
    AlwaysInv(cfg, states, trace, i);
    AlwaysOrdered(cfg, states, trace, i);
    hide Inv, Advances;
    assert Enabled(cfg, states[i], trace[i]) && states[i + 1] == Do(cfg, states[i], trace[i]);
    hide Enabled, Do;
    RowsNeverRegress(cfg, states[i], trace[i], k);
  }

  /** With no two documents of a key in a guarded table sharing a stamp, "reflected" means:
      that write or a strictly newer one; in a write-once table, that write. */
  lemma ReflectedIsSameOrNewer(cfg: Config, s: System, d: Rec)
    requires ValidConfig(cfg) && Inv(cfg, s) && s.cache.Some? && d in s.durable
    requires Reflects(s.cache.value.rows, d)
    requires forall a, b :: a in s.durable && b in s.durable && a.key == b.key && a.stamp == b.stamp ==>
                              a == b || a.key.table !in cfg.guarded
    ensures s.cache.value.rows[d.key] == d
            || (d.key.table in cfg.guarded && !Wins(d.stamp, s.cache.value.rows[d.key].stamp))
  {
    var c, b := s.cache.value, s.origin.value;
    assert CacheOk(s.store, b, c) && BaseOk(s.now, s.durable, s.horizon, b);
    var names := AppliedNames(s.store, c.watermark, c.applied);
    FoldAdvances(b.rows, RecordsOf(s.store, names));
    RecordsHave(s.store, names);
    var r := c.rows[d.key];
    if r in RecordsOf(s.store, names) {
      var n :| n in names && n in s.store && r in s.store[n].recs;
      assert SegmentOk(cfg, s.now, s.durable, n, s.store[n]);
    }
    assert r in s.durable;
  }
}
