/** Two runs of the replication protocol: one in which Freshness goes back, and one in
    which overlapping rollups take a served row away. */
module ReplicationRuns {
  import opened Upserts
  import opened Convergence
  import opened Segments
  import opened Replication
  import opened Options

  const LATE: Rec := Rec(Key("attempts", []), Val(1_000_500), Doc(map["$.Updated" := Val(1_000_500)]))
  const CFG: Config := Config(map["attempts" := "$.Updated"], {"attempts"}, 120_000, 86_400_000, 120_000, 120_000, 1)

  const START: System :=
    System(1_000_500, map[], map[], map[], None, None, map[], map[], 1_000_500, None, None, Idle)

  /** One run after another. */
  lemma Chain(s: seq<System>, a: seq<Action>, t: seq<System>, b: seq<Action>)
    returns (states: seq<System>, trace: seq<Action>)
    requires Steps(CFG, s, a) && Steps(CFG, t, b) && s[|a|] == t[0]
    ensures Steps(CFG, states, trace) && |trace| == |a| + |b|
    ensures states[0] == s[0] && states[|a|] == t[0] && states[|trace|] == t[|b|]
    ensures |b| > 0 ==> states[|trace| - 1] == t[|b| - 1]
  {
    states, trace := s[..|a|] + t, a + b;
    forall i | 0 <= i < |trace|
      ensures Enabled(CFG, states[i], trace[i]) && states[i + 1] == Do(CFG, states[i], trace[i])
    {
      if i < |a| {
        assert states[i] == s[i] && states[i + 1] == s[i + 1];
      } else {
        assert states[i] == t[i - |a|] && states[i + 1] == t[i - |a| + 1];
      }
    }
  }

  lemma OneStep(s: System, a: Action) returns (states: seq<System>, trace: seq<Action>)
    requires Enabled(CFG, s, a)
    ensures Steps(CFG, states, trace) && |trace| == 1 && states[0] == s && states[1] == Do(CFG, s, a)
  {
    states, trace := [s, Do(CFG, s, a)], [a];
  }

  // ----- serving a new base -----

  lemma NoSegments(watermark: Time)
    ensures NewSegments(map[], None, watermark) == []
  {
    var store: Store := map[];
    assert (set n | n in store && n >= FirstName(watermark)) == {};
  }

  lemma DownloadBase(s: System) returns (states: seq<System>, trace: seq<Action>)
    requires s.sync.Idle? && s.base.Some? && s.base.value.era == CFG.schema
    requires s.cache.Some? ==> s.cache.value.refusedTag.None? && s.cache.value.baseTag != s.base.value.tag
    ensures Steps(CFG, states, trace) && |trace| == 2 && states[0] == s
    ensures states[2] == s.(sync := Fetched(s.base.value.tag, s.base.value))
  {
    var s1 := Do(CFG, s, SyncStat);
    var s2 := Do(CFG, s1, SyncFetch);
    states, trace := [s, s1, s2], [SyncStat, SyncFetch];
  }

  function Serving(b: Base): CacheState {
    CacheState(b.rows, b.watermark, b.tag, None, None)
  }

  lemma SwapBase(s: System, b: Base) returns (states: seq<System>, trace: seq<Action>)
    requires s.sync == Fetched(b.tag, b) && s.store == map[]
    ensures Steps(CFG, states, trace) && |trace| == 2 && states[0] == s && states[1].cache == s.cache
    ensures states[2] == s.(cache := Some(Serving(b)), origin := Some(b), sync := Idle)
  {
    NoSegments(b.watermark);
    var s1 := Do(CFG, s, SyncReplay);
    var s2 := Do(CFG, s1, SyncSwap);
    states, trace := [s, s1, s2], [SyncReplay, SyncSwap];
  }

  /** With no segments, a sync that finds a new base serves exactly it. */
  lemma ServeBase(s: System) returns (states: seq<System>, trace: seq<Action>)
    requires s.sync.Idle? && s.base.Some? && s.base.value.era == CFG.schema && s.store == map[]
    requires s.cache.Some? ==> s.cache.value.refusedTag.None? && s.cache.value.baseTag != s.base.value.tag
    ensures Steps(CFG, states, trace) && |trace| == 4 && states[0] == s
    ensures states[3].cache == s.cache
    ensures states[4] == s.(cache := Some(Serving(s.base.value)), origin := s.base)
  {
    var t, b := DownloadBase(s);
    var u, c := SwapBase(t[2], s.base.value);
    hide Steps;
    states, trace := Chain(t, b, u, c);
  }

  // ----- Freshness goes back -----

  // A run starts and a write becomes durable; a rollup takes its watermark, is
  // published and served; then the run lands.

  const ROLLED: Base := Base(7, 1, 1_001_700, map[LATE.key := LATE], {LATE})
  const STARTED: DeltaRun := DeltaRun(1_000_500, 1_000_500 - 86_400_000, [], map[])
  const WRITTEN: System := START.(now := 1_001_700, durable := map[LATE := 1_000_500], src := map[LATE.key := LATE],
                                  run := Some(STARTED))

  lemma WriteDuringRun() returns (states: seq<System>, trace: seq<Action>)
    ensures Steps(CFG, states, trace) && states[0] == START && |trace| == 3 && states[3] == WRITTEN
  {
    var s1 := Do(CFG, START, DeltaBegin);
    assert s1.run.value == STARTED by { assert START.store.Keys == {}; }
    var s2 := Do(CFG, s1, Write(LATE));
    var s3 := Do(CFG, s2, Tick(1_001_700));
    states, trace := [START, s1, s2, s3], [DeltaBegin, Write(LATE), Tick(1_001_700)];
  }

  lemma OneRecord()
    ensures Fold(map[], [LATE]) == map[LATE.key := LATE] && Fold(map[], []) == map[]
  {
    assert [LATE][..0] == [];
  }

  lemma RollupDuringRun() returns (states: seq<System>, trace: seq<Action>)
    ensures Steps(CFG, states, trace) && states[0] == WRITTEN && |trace| == 3
    ensures states[3] == WRITTEN.(base := Some(ROLLED))
  {
    var s1 := Do(CFG, WRITTEN, RollupBegin(0));
    assert s1.rollups[0].seen == {LATE};
    var s2 := Do(CFG, s1, RollupScan(0, "attempts", [LATE]));
    assert s2.rollups[0].recs == [LATE];
    var s3 := Do(CFG, s2, RollupPublish(0, 7, 1));
    OneRecord();
    assert s3.rollups == map[];
    states, trace := [WRITTEN, s1, s2, s3], [RollupBegin(0), RollupScan(0, "attempts", [LATE]), RollupPublish(0, 7, 1)];
  }

  lemma LandRun(s: System) returns (states: seq<System>, trace: seq<Action>)
    requires s == WRITTEN.(base := s.base, cache := s.cache, origin := s.origin)
    ensures Steps(CFG, states, trace) && states[0] == s && |trace| == 2
    ensures states[2] == s.(run := None, covered := states[2].covered, store := states[2].store)
    ensures states[2].store.Keys == {1000}
  {
    var s1 := Do(CFG, s, DeltaScan("attempts", [LATE]));
    assert s1.run.value.recs == [LATE];
    var s2 := Do(CFG, s1, DeltaLand);
    states, trace := [s, s1, s2], [DeltaScan("attempts", [LATE]), DeltaLand];
  }

  lemma OneListing(store: Store, watermark: Time)
    requires store.Keys == {1000} && FirstName(watermark) <= 1000
    ensures NewSegments(store, None, watermark) == [1000]
  {
    assert (set n | n in store && n >= FirstName(watermark)) == {1000};
    SortedUnique([1000], {1000});
  }

  lemma ApplyLanded(s: System) returns (states: seq<System>, trace: seq<Action>)
    requires s.sync.Idle? && s.base == Some(ROLLED) && s.store.Keys == {1000} && s.cache == Some(Serving(ROLLED))
    ensures Steps(CFG, states, trace) && states[0] == s && |trace| == 3
    ensures states[2].cache == s.cache && states[3].cache.Some? && Freshness(states[3].cache.value) == 1_000_000
  {
    var s1 := Do(CFG, s, SyncStat);
    OneListing(s.store, 1_001_700);
    var s2 := Do(CFG, s1, SyncList);
    var s3 := Do(CFG, s2, SyncApply);
    states, trace := [s, s1, s2, s3], [SyncStat, SyncList, SyncApply];
  }

  /** Freshness goes back at the last step of a run within every timing hypothesis, in
      which rollups do not overlap. */
  lemma FreshnessCanGoBack() returns (states: seq<System>, trace: seq<Action>)
    ensures ValidConfig(CFG) && Behaves(CFG, states, trace) && |trace| > 0
    ensures states[|trace| - 1].cache.Some? && states[|trace|].cache.Some?
    ensures Freshness(states[|trace|].cache.value) < Freshness(states[|trace| - 1].cache.value)
  {
    var first, a := WriteDuringRun();
    var second, b := RollupDuringRun();
    var third, c := ServeBase(second[3]);
    var fourth, d := LandRun(third[4]);
    var fifth, e := ApplyLanded(fourth[2]);
    hide Steps;
    states, trace := Chain(first, a, second, b);
    states, trace := Chain(states, trace, third, c);
    states, trace := Chain(states, trace, fourth, d);
    states, trace := Chain(states, trace, fifth, e);
  }

  // ----- rows go back -----

  // A rollup begins and scans, a second one begins, and a write becomes durable. The second
  // scans it, and is published and served before the first is published.

  const EMPTY: Rollup := Rollup(1_000_500, {}, {"attempts"}, [])
  const FULL: Rollup := Rollup(1_001_000, {}, {"attempts"}, [LATE])
  const BEGUN: System :=
    START.(now := 1_001_000, rollups := map[1 := Rollup(1_001_000, {}, {}, []), 2 := EMPTY])

  lemma TwoRollups() returns (states: seq<System>, trace: seq<Action>)
    ensures Steps(CFG, states, trace) && states[0] == START && |trace| == 4 && states[4] == BEGUN
  {
    var s1 := Do(CFG, START, RollupBegin(2));
    var s2 := Do(CFG, s1, RollupScan(2, "attempts", []));
    var s3 := Do(CFG, s2, Tick(1_001_000));
    var s4 := Do(CFG, s3, RollupBegin(1));
    assert s2.rollups[2] == EMPTY;
    states := [START, s1, s2, s3, s4];
    trace := [RollupBegin(2), RollupScan(2, "attempts", []), Tick(1_001_000), RollupBegin(1)];
  }

  lemma LaterScan(s: System) returns (states: seq<System>, trace: seq<Action>)
    requires s == BEGUN
    ensures Steps(CFG, states, trace) && states[0] == s && |trace| == 3
    ensures states[3] == BEGUN.(durable := map[LATE := 1_001_000], src := map[LATE.key := LATE],
                                rollups := map[2 := EMPTY], base := Some(Published(FULL, 7, 1)))
  {
    var s1 := Do(CFG, s, Write(LATE));
    var s2 := Do(CFG, s1, RollupScan(1, "attempts", [LATE]));
    assert s2.rollups[1] == FULL;
    var s3 := Do(CFG, s2, RollupPublish(1, 7, 1));
    assert s3.rollups == map[2 := EMPTY];
    states, trace := [s, s1, s2, s3], [Write(LATE), RollupScan(1, "attempts", [LATE]), RollupPublish(1, 7, 1)];
  }

  /** Nothing keeps two rollups apart. When the one that began and scanned earlier is
      published later, the next rehydration takes a served row away and Freshness back. */
  lemma OverlapTakesRowsAway() returns (states: seq<System>, trace: seq<Action>)
    ensures ValidConfig(CFG) && Behaves(CFG, states, trace) && |trace| > 0
    ensures var before, after := states[|trace| - 1].cache, states[|trace|].cache;
            && before.Some? && LATE.key in before.value.rows
            && after.Some? && LATE.key !in after.value.rows
            && Freshness(after.value) < Freshness(before.value)
  {
    OneRecord();
    var first, a := TwoRollups();
    var second, b := LaterScan(first[4]);
    var third, c := ServeBase(second[3]);
    var fourth, d := OneStep(third[4], RollupPublish(2, 8, 1));
    var fifth, e := ServeBase(fourth[1]);
    hide Steps;
    states, trace := Chain(first, a, second, b);
    states, trace := Chain(states, trace, third, c);
    states, trace := Chain(states, trace, fourth, d);
    states, trace := Chain(states, trace, fifth, e);
  }
}
