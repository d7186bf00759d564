/** When rollups do not overlap, no base in use is newer than the published one
    (internal/snapshot/snapshot.go:76-152, internal/docdb/cache.go:179-232). */
module ReplicationOrder {
  import opened Upserts
  import opened Convergence
  import opened Segments
  import opened Replication
  import opened ReplicationProofs
  import opened Options

  /** What a base holds was durable, so it precedes a rollup that begins now. */
  lemma BaseBeforeNow(now: Time, durable: map<Rec, Time>, horizon: Time, x: Option<Base>, id: int)
    requires UsedBaseOk(now, durable, horizon, x)
    ensures AllPrecede(x, map[id := Rollup(now, durable.Keys, {}, [])])
  {
  }

  lemma BeginKeepsOrder(cfg: Config, s: System, id: int)
    requires Inv(cfg, s) && Ordered(s) && s.rollups == map[]
    ensures Enabled(cfg, s, RollupBegin(id)) && Ordered(Do(cfg, s, RollupBegin(id)))
  {
    BaseBeforeNow(s.now, s.durable, s.horizon, s.base, id);
    BaseBeforeNow(s.now, s.durable, s.horizon, s.origin, id);
    BaseBeforeNow(s.now, s.durable, s.horizon, SyncBase(s.sync), id);
    hide Inv, AllPrecede, NoneNewer;
    assert map[][id := Rollup(s.now, s.durable.Keys, {}, [])] == map[id := Rollup(s.now, s.durable.Keys, {}, [])];
  }

  lemma PublishKeepsOrder(base: Option<Base>, rollups: map<int, Rollup>, origin: Option<Base>, fetched: Option<Base>,
                          id: int, tag: int, era: int)
    requires InOrder(base, rollups, origin, fetched) && id in rollups
    ensures InOrder(Some(Published(rollups[id], tag, era)), rollups - {id}, origin, fetched)
  {
    forall k | k in rollups ensures k == id {}
    assert (rollups - {id}).Keys == {};
  }

  lemma ScanKeepsOrder(base: Option<Base>, rollups: map<int, Rollup>, origin: Option<Base>, fetched: Option<Base>,
                       id: int, tb: string, found: seq<Rec>)
    requires InOrder(base, rollups, origin, fetched) && id in rollups
    ensures InOrder(base, rollups[id := Scanned(rollups[id], tb, found)], origin, fetched)
  {
    hide NoneNewer;
  }

  /** A base is fetched, swapped in, or dropped. */
  lemma BasesMoveInOrder(base: Option<Base>, rollups: map<int, Rollup>, origin: Option<Base>, fetched: Option<Base>)
    requires InOrder(base, rollups, origin, fetched)
    ensures InOrder(base, rollups, origin, None)
    ensures InOrder(base, rollups, origin, base)
    ensures fetched.Some? ==> InOrder(base, rollups, fetched, None)
    ensures forall id :: InOrder(base, rollups - {id}, origin, fetched)
  {
  }

  lemma RollupStepKeepsOrder(cfg: Config, s: System, a: Action)
    requires Inv(cfg, s) && Ordered(s) && Enabled(cfg, s, a)
    requires a.RollupBegin? || a.RollupScan? || a.RollupPublish? || a.RollupCrash?
    requires a.RollupBegin? ==> s.rollups == map[]
    ensures Ordered(Do(cfg, s, a))
  {
    match a
    case RollupBegin(id) => BeginKeepsOrder(cfg, s, id);
    case RollupScan(id, tb, found) => ScanKeepsOrder(s.base, s.rollups, s.origin, SyncBase(s.sync), id, tb, found);
    case RollupPublish(id, tag, era) => PublishKeepsOrder(s.base, s.rollups, s.origin, SyncBase(s.sync), id, tag, era);
    case RollupCrash(id) => BasesMoveInOrder(s.base, s.rollups, s.origin, SyncBase(s.sync));
  }

  lemma SyncStepKeepsOrder(cfg: Config, s: System, a: Action)
    requires Ordered(s) && Enabled(cfg, s, a)
    requires a.SyncStat? || a.SyncFetch? || a.SyncReplay? || a.SyncSwap? || a.SyncList? || a.SyncApply? || a.SyncStop?
    ensures Ordered(Do(cfg, s, a))
  {
    BasesMoveInOrder(s.base, s.rollups, s.origin, SyncBase(s.sync));
    SyncMovesBases(cfg, s, a);
    hide InOrder, Do, SyncBase, Enabled;
  }

  lemma StatMoves(cfg: Config, s: System)
    requires Enabled(cfg, s, SyncStat)
    ensures var t := Do(cfg, s, SyncStat);
            t.base == s.base && t.rollups == s.rollups && t.origin == s.origin && SyncBase(t.sync).None?
  {
  }

  lemma FetchMoves(cfg: Config, s: System)
    requires Enabled(cfg, s, SyncFetch)
    ensures var t := Do(cfg, s, SyncFetch);
            && t.base == s.base && t.rollups == s.rollups && t.origin == s.origin
            && (SyncBase(t.sync).None? || SyncBase(t.sync) == s.base)
  {
  }

  lemma SyncMovesBases(cfg: Config, s: System, a: Action)
    requires Enabled(cfg, s, a)
    requires a.SyncStat? || a.SyncFetch? || a.SyncReplay? || a.SyncSwap? || a.SyncList? || a.SyncApply? || a.SyncStop?
    ensures var t := Do(cfg, s, a);
            && t.base == s.base && t.rollups == s.rollups
            && if a.SyncSwap? then t.origin == SyncBase(s.sync) && SyncBase(s.sync).Some? && SyncBase(t.sync).None?
               else t.origin == s.origin && (SyncBase(t.sync).None? || SyncBase(t.sync) == SyncBase(s.sync)
                                             || SyncBase(t.sync) == s.base)
  {
    hide Hydrate, ApplySegment, NewSegments;
    match a
    case SyncStat => StatMoves(cfg, s);
    case SyncFetch => FetchMoves(cfg, s);
    case SyncReplay =>
    case SyncSwap =>
    case SyncList =>
    case SyncApply =>
    case SyncStop =>
  }

  lemma StepKeepsOrder(cfg: Config, s: System, a: Action)
    requires Inv(cfg, s) && Ordered(s) && Enabled(cfg, s, a)
    requires a.RollupBegin? ==> s.rollups == map[]
    ensures Ordered(Do(cfg, s, a))
  {
    hide Inv, InOrder;
    if a.RollupBegin? || a.RollupScan? || a.RollupPublish? || a.RollupCrash? {
      RollupStepKeepsOrder(cfg, s, a);
    } else if a.SyncStat? || a.SyncFetch? || a.SyncReplay? || a.SyncSwap? || a.SyncList? || a.SyncApply?
        || a.SyncStop? {
      SyncStepKeepsOrder(cfg, s, a);
    }
  }

  lemma {:induction false} AlwaysOrdered(cfg: Config, states: seq<System>, trace: seq<Action>, i: nat)
    requires ValidConfig(cfg) && Behaves(cfg, states, trace) && RollupsApart(states, trace) && i <= |trace|
    ensures Ordered(states[i])
  {
    if i > 0 {
      AlwaysOrdered(cfg, states, trace, i - 1);
      AlwaysInv(cfg, states, trace, i - 1);
      hide Inv, Ordered;
      StepKeepsOrder(cfg, states[i - 1], trace[i - 1]);
    }
  }
}
