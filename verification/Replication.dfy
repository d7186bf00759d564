/** The replication protocol as one transition system: source writes, rollups,
    delta runs and cache syncs, any of which may be interleaved or crash
    (internal/snapshot/snapshot.go, delta.go; internal/docdb/cache.go).

    The protocol's timing hypotheses are guards of the steps: a write whose scan clock
    reads u becomes durable by u + visibility; a source document is only overwritten by
    one that neither its guard stamp nor its scan clock puts earlier, and never in a table
    whose upserts are unguarded; delta runs do not overlap, do not share a second and scan
    within `scan` of their start; and a run that finds no segment reaches back behind every
    base in use. Any number of rollups may be in progress at once. */
module Replication {
  import opened Upserts
  import opened Convergence
  import opened Segments
  import opened Options

  datatype Config = Config(
    clocks: map<string, string>, // the doc tables a run scans, and the field each is scanned by
    guarded: set<string>,        // those whose upserts are guarded by an `updated` column
    slack: Time,                 // DeltaOptions.Slack
    bootstrap: Time,             // DeltaOptions.Bootstrap
    visibility: Time,            // bound on how long after its clock a write becomes durable
    scan: Time,                  // bound on how long after its start a delta run scans
    schema: int)

  ghost predicate ValidConfig(cfg: Config) {
    && 0 <= cfg.visibility <= cfg.slack
    && 0 <= cfg.scan <= CACHE_SLACK
    && cfg.visibility <= cfg.bootstrap
  }

  /** What a bounded scan of the record's table compares: Updated, or Created for the
      write-once runs (internal/snapshot/source.go:82-105). The guard stamp is another matter. */
  function ScanClock(cfg: Config, r: Rec): Scalar {
    if r.key.table !in cfg.clocks then Null
    else
      var field := cfg.clocks[r.key.table];
      if field in r.doc.fields then r.doc.fields[field] else Null
  }

  // ----- state -----

  /** A published database; `seen` (proofs only) is what was durable when its watermark was taken. */
  datatype Base = Base(tag: int, era: int, watermark: Time, rows: Rows, seen: set<Rec>)

  datatype Rollup = Rollup(watermark: Time, seen: set<Rec>, scanned: set<string>, recs: seq<Rec>)

  datatype DeltaRun = DeltaRun(now: Time, since: Time, recs: seq<Rec>, saw: map<string, set<Rec>>)

  /** What Cache keeps under its lock. */
  datatype CacheState = CacheState(
    rows: Rows, watermark: Time, baseTag: int, refusedTag: Option<int>, applied: Option<int>)

  datatype Sync =
    | Idle
    | Hydrating(tag: int)
    | Fetched(tag: int, base: Base)
    | Replayed(next: CacheState, base: Base)
    | Listing
    | Applying(todo: seq<int>)

  datatype System = System(
    now: Time,
    durable: map<Rec, Time>,        // every write that became durable, and when
    src: map<Key, Rec>,             // what a scan of the source reads
    rollups: map<int, Rollup>,      // those in progress
    base: Option<Base>,             // the published object
    run: Option<DeltaRun>,
    store: Store,                   // the published segments
    covered: map<string, set<Rec>>, // what the last completed run's scans came after
    horizon: Time,                  // how far back the latest bootstrap run reached
    cache: Option<CacheState>,
    origin: Option<Base>,           // the base the cache was hydrated from
    sync: Sync)

  /** Freshness. */
  function Freshness(c: CacheState): Time {
    match c.applied
    case Some(n) => SegmentTime(n)
    case None => c.watermark
  }

  /** hydrate's result over a base and a listing. */
  function Hydrate(tag: int, watermark: Time, rows: Rows, store: Store): CacheState {
    var names := NewSegments(store, None, watermark);
    CacheState(Replay(rows, store, names), watermark, tag, None,
               if names == [] then None else Some(names[|names| - 1]))
  }

  /** One locked step of sync's loop. */
  function ApplySegment(c: CacheState, name: int, recs: seq<Rec>): CacheState {
    c.(rows := Fold(c.rows, recs), applied := Some(name))
  }

  // ----- steps -----

  datatype Action =
    | Tick(to: Time)
    | Write(rec: Rec)
    | RollupBegin(id: int)
    | RollupScan(id: int, table: string, found: seq<Rec>)
    | RollupPublish(id: int, tag: int, era: int)
    | RollupCrash(id: int)
    | DeltaBegin
    | DeltaScan(table: string, found: seq<Rec>)
    | DeltaLand
    | DeltaCrash
    | SyncStat
    | SyncFetch
    | SyncReplay
    | SyncSwap
    | SyncList
    | SyncApply
    | SyncStop  // an error, or nothing left to apply

  /** The base a hydration in progress has downloaded. */
  function SyncBase(sync: Sync): Option<Base> {
    match sync
    case Fetched(_, b) => Some(b)
    case Replayed(_, b) => Some(b)
    case _ => None
  }

  /** The bootstrap window starting at `from` reaches behind the base's watermark. */
  ghost predicate ReachesBehind(from: Time, x: Option<Base>) {
    x.Some? ==> from <= x.value.watermark
  }

  /** Delta's resume point: the newest segment's time less the slack, or the bootstrap window. */
  function Since(cfg: Config, now: Time, store: Store): Time {
    var names := Sorted(store.Keys);
    if names == [] then now - cfg.bootstrap else SegmentTime(names[|names| - 1]) - cfg.slack
  }

  /** A table scan: each current document of the table, at or after `since` if bounded. */
  ghost predicate Scans(cfg: Config, src: map<Key, Rec>, table: string, since: Option<Time>, found: seq<Rec>) {
    && (forall r :: r in found ==> r.key in src && src[r.key] == r && r.key.table == table)
    && (forall k :: k in src && k.table == table && AtOrAfter(cfg, src[k], since) ==> src[k] in found)
  }

  predicate AtOrAfter(cfg: Config, r: Rec, since: Option<Time>) {
    since.Some? ==> ScanClock(cfg, r).Val? && ScanClock(cfg, r).rank >= since.value
  }

  /** A write to the source may follow what is there. */
  predicate MayFollow(cfg: Config, src: map<Key, Rec>, r: Rec) {
    && (r.key.table !in cfg.guarded ==> r.stamp.Null? && r.key !in src)
    && (r.key in src ==> Wins(r.stamp, src[r.key].stamp) && Wins(ScanClock(cfg, r), ScanClock(cfg, src[r.key])))
  }

  ghost predicate Enabled(cfg: Config, s: System, a: Action) {
    match a
    case Tick(to) => s.now <= to
    case Write(r) =>
      && r.key.table in cfg.clocks
      && r !in s.durable
      && (ScanClock(cfg, r).Val? ==> s.now <= ScanClock(cfg, r).rank + cfg.visibility)
      && MayFollow(cfg, s.src, r)
    case RollupBegin(id) => id !in s.rollups
    case RollupScan(id, tb, found) => id in s.rollups && Scans(cfg, s.src, tb, None, found)
    case RollupPublish(id, tag, era) =>
      && id in s.rollups && cfg.clocks.Keys <= s.rollups[id].scanned
      && (s.base.Some? ==> s.base.value.tag != tag)
    case RollupCrash(id) => id in s.rollups
    case DeltaBegin =>
      && s.run.None?
      && (forall n :: n in s.store ==> n < SegmentName(s.now))
      && (s.store == map[] ==>
            var from := s.now - cfg.bootstrap + cfg.visibility;
            && ReachesBehind(from, s.base) && ReachesBehind(from, s.origin) && ReachesBehind(from, SyncBase(s.sync))
            && forall id :: id in s.rollups ==> from <= s.rollups[id].watermark)
    case DeltaScan(tb, found) =>
      && s.run.Some? && s.now <= s.run.value.now + cfg.scan
      && tb in cfg.clocks && Scans(cfg, s.src, tb, Some(s.run.value.since), found)
    case DeltaLand => s.run.Some? && s.run.value.saw.Keys == cfg.clocks.Keys
    case DeltaCrash => s.run.Some?
    case SyncStat => s.sync.Idle? && s.base.Some?
    case SyncFetch => s.sync.Hydrating? && s.base.Some?
    case SyncReplay => s.sync.Fetched?
    case SyncSwap => s.sync.Replayed?
    case SyncList => s.sync.Listing? && s.cache.Some?
    case SyncApply => s.sync.Applying? && s.sync.todo != [] && s.sync.todo[0] in s.store && s.cache.Some?
    case SyncStop => !s.sync.Idle?
  }

  /** sync's choice after Stat. */
  function AfterStat(cache: Option<CacheState>, tag: int): Sync {
    match cache
    case None => Hydrating(tag)
    case Some(c) =>
      if c.refusedTag == Some(tag) then Idle
      else if tag != c.baseTag then Hydrating(tag)
      else Listing
  }

  function Scanned(r: Rollup, table: string, found: seq<Rec>): Rollup {
    r.(scanned := r.scanned + {table}, recs := r.recs + found)
  }

  function Published(r: Rollup, tag: int, era: int): Base {
    Base(tag, era, r.watermark, Fold(map[], r.recs), r.seen)
  }

  ghost function Do(cfg: Config, s: System, a: Action): System
    requires Enabled(cfg, s, a)
  {
    match a
    case Tick(to) => s.(now := to)
    case Write(r) => s.(durable := s.durable[r := s.now], src := s.src[r.key := r])
    case RollupBegin(id) => s.(rollups := s.rollups[id := Rollup(s.now, s.durable.Keys, {}, [])])
    case RollupScan(id, tb, found) => s.(rollups := s.rollups[id := Scanned(s.rollups[id], tb, found)])
    case RollupPublish(id, tag, era) => s.(rollups := s.rollups - {id},
                                           base := Some(Published(s.rollups[id], tag, era)))
    case RollupCrash(id) => s.(rollups := s.rollups - {id})
    case DeltaBegin =>
      var from := s.now - cfg.bootstrap + cfg.visibility;
      s.(run := Some(DeltaRun(s.now, Since(cfg, s.now, s.store), [], map[])),
         horizon := if s.store == map[] && s.horizon < from then from else s.horizon)
    case DeltaScan(tb, found) =>
      var r := s.run.value;
      s.(run := Some(r.(recs := r.recs + found, saw := r.saw[tb := s.durable.Keys])))
    case DeltaLand =>
      var r := s.run.value;
      s.(run := None, covered := r.saw,
         store := if r.recs == [] then s.store
                  else s.store[SegmentName(r.now) := Segment(r.recs, r.now, r.saw)])
    case DeltaCrash => s.(run := None)
    case SyncStat => s.(sync := AfterStat(s.cache, s.base.value.tag))
    case SyncFetch =>
      if s.base.value.era != cfg.schema then
        s.(sync := Idle,
           cache := if s.cache.Some? then Some(s.cache.value.(refusedTag := Some(s.sync.tag))) else None)
      else s.(sync := Fetched(s.sync.tag, s.base.value))
    case SyncReplay =>
      var b := s.sync.base;
      s.(sync := Replayed(Hydrate(s.sync.tag, b.watermark, b.rows, s.store), b))
    case SyncSwap => s.(cache := Some(s.sync.next), origin := Some(s.sync.base), sync := Idle)
    case SyncList => s.(sync := Applying(NewSegments(s.store, s.cache.value.applied, s.cache.value.watermark)))
    case SyncApply =>
      var n := s.sync.todo[0];
      s.(cache := Some(ApplySegment(s.cache.value, n, s.store[n].recs)), sync := Applying(s.sync.todo[1..]))
    case SyncStop => s.(sync := Idle)
  }

  ghost predicate Init(s: System) {
    && s.durable == map[] && s.src == map[] && s.rollups == map[] && s.base.None? && s.run.None?
    && s.store == map[] && s.covered == map[] && s.horizon == s.now
    && s.cache.None? && s.origin.None? && s.sync.Idle?
  }

  /** Each action is enabled where it is taken and leads to the next state. */
  ghost predicate Steps(cfg: Config, states: seq<System>, trace: seq<Action>) {
    && |states| == |trace| + 1
    && forall i :: 0 <= i < |trace| ==> Enabled(cfg, states[i], trace[i])
                                        && states[i + 1] == Do(cfg, states[i], trace[i])
  }

  /** A run of the system. */
  ghost predicate Behaves(cfg: Config, states: seq<System>, trace: seq<Action>) {
    Steps(cfg, states, trace) && Init(states[0])
  }

  // ----- invariant -----

  /** Some record of the batch makes d redundant. */
  ghost predicate Carries(recs: seq<Rec>, d: Rec) {
    exists r :: r in recs && r.key == d.key && Wins(r.stamp, d.stamp)
  }

  /** The scans recorded in `saw` came after d became durable. */
  ghost predicate Saw(saw: map<string, set<Rec>>, d: Rec) {
    d.key.table in saw && d in saw[d.key.table]
  }

  ghost predicate SrcOk(cfg: Config, now: Time, durable: map<Rec, Time>, src: map<Key, Rec>) {
    && (forall d :: d in durable ==> Current(cfg, src, d) && durable[d] <= now && d.key.table in cfg.clocks)
    && (forall d :: d in durable && ScanClock(cfg, d).Val? ==> durable[d] <= ScanClock(cfg, d).rank + cfg.visibility)
    && (forall k :: k in src ==> src[k].key == k && src[k] in durable)
  }

  /** The source holds d or what has overwritten it. */
  ghost predicate Current(cfg: Config, src: map<Key, Rec>, d: Rec) {
    && Reflects(src, d)
    && Wins(ScanClock(cfg, src[d.key]), ScanClock(cfg, d))
    && (d.key.table !in cfg.guarded ==> src[d.key] == d)
  }

  ghost predicate BaseOk(now: Time, durable: map<Rec, Time>, horizon: Time, b: Base) {
    && horizon <= b.watermark <= now
    && WellKeyed(b.rows)
    && (forall d :: d in b.seen ==> Reflects(b.rows, d))
    && (forall d :: d in durable && durable[d] < b.watermark ==> d in b.seen)
    && (forall k :: k in b.rows ==> b.rows[k] in durable)
  }

  ghost predicate RollupOk(now: Time, durable: map<Rec, Time>, horizon: Time, r: Rollup) {
    && horizon <= r.watermark <= now
    && (forall d :: d in durable && durable[d] < r.watermark ==> d in r.seen)
    && (forall d :: d in r.seen ==> d in durable)
    && (forall d :: d in r.seen && d.key.table in r.scanned ==> Carries(r.recs, d))
    && (forall q :: q in r.recs ==> q in durable)
  }

  ghost predicate SegmentOk(cfg: Config, now: Time, durable: map<Rec, Time>, n: int, seg: Segment) {
    && SegmentName(seg.now) == n && seg.now <= now && seg.saw.Keys == cfg.clocks.Keys
    && (forall tb, d :: tb in seg.saw && d in durable && durable[d] < seg.now ==> d in seg.saw[tb])
    && (forall tb, d :: tb in seg.saw && d in seg.saw[tb] ==> d in durable)
    && (forall r :: r in seg.recs ==> r in durable && durable[r] <= seg.now + cfg.scan)
  }

  /** d is in a segment named n or before, as itself or something newer, or is
      old enough that every base in use has it. */
  ghost predicate Covered(durable: map<Rec, Time>, store: Store, horizon: Time, d: Rec, n: int) {
    || (d in durable && durable[d] < horizon)
    || exists m :: m in store && m <= n && Carries(store[m].recs, d)
  }

  ghost predicate StoreOk(cfg: Config, durable: map<Rec, Time>, store: Store, horizon: Time) {
    forall n, d :: n in store && Saw(store[n].saw, d) && ScanClock(cfg, d).Val?
      ==> Covered(durable, store, horizon, d, n)
  }

  ghost predicate CoveredOk(cfg: Config, durable: map<Rec, Time>, store: Store, horizon: Time,
                            covered: map<string, set<Rec>>) {
    forall d :: Saw(covered, d) && ScanClock(cfg, d).Val?
      ==> exists n :: (n in store || store == map[]) && Covered(durable, store, horizon, d, n)
  }

  /** Every write the run's scans could miss was already visible to an earlier run. */
  ghost predicate ResumeOk(cfg: Config, store: Store, horizon: Time, since: Time) {
    if store == map[] then since + cfg.visibility <= horizon
    else since + cfg.visibility <= SegmentTime(Max(store.Keys))
  }

  ghost predicate RunOk(cfg: Config, now: Time, durable: map<Rec, Time>, store: Store, horizon: Time, r: DeltaRun) {
    && r.now <= now
    && (forall n :: n in store ==> n < SegmentName(r.now))
    && ResumeOk(cfg, store, horizon, r.since)
    && (forall tb, d :: tb in r.saw && d in durable && durable[d] < r.now ==> d in r.saw[tb])
    && (forall tb, d :: tb in r.saw && d in r.saw[tb] ==> d in durable)
    && (forall q :: q in r.recs ==> q in durable && durable[q] <= r.now + cfg.scan)
    && (forall d :: Saw(r.saw, d) && AtOrAfter(cfg, d, Some(r.since)) ==> Carries(r.recs, d))
  }

  /** The cache is the upsert fold of its base and a name-ordered prefix of the
      segments past the base's slack window. */
  ghost predicate CacheOk(store: Store, b: Base, c: CacheState) {
    && c.watermark == b.watermark
    && (c.applied.Some? ==> c.applied.value in store && c.applied.value >= FirstName(b.watermark))
    && c.rows == Replay(b.rows, store, AppliedNames(store, b.watermark, c.applied))
  }

  /** What is left to apply continues the applied prefix. */
  ghost predicate TodoOk(store: Store, c: CacheState, todo: seq<int>) {
    todo != [] ==>
      && todo[|todo| - 1] in store
      && AppliedNames(store, c.watermark, Some(todo[|todo| - 1])) == AppliedNames(store, c.watermark, c.applied) + todo
  }

  ghost predicate UsedBaseOk(now: Time, durable: map<Rec, Time>, horizon: Time, x: Option<Base>) {
    x.Some? ==> BaseOk(now, durable, horizon, x.value)
  }

  ghost predicate RollupsOk(now: Time, durable: map<Rec, Time>, horizon: Time, rollups: map<int, Rollup>) {
    forall id :: id in rollups ==> RollupOk(now, durable, horizon, rollups[id])
  }

  /** Every base published, being downloaded or served, and every rollup in progress, is sound. */
  ghost predicate BasesOk(
    now: Time, durable: map<Rec, Time>, horizon: Time, base: Option<Base>, rollups: map<int, Rollup>,
    origin: Option<Base>, fetched: Option<Base>)
  {
    && UsedBaseOk(now, durable, horizon, base)
    && UsedBaseOk(now, durable, horizon, origin)
    && UsedBaseOk(now, durable, horizon, fetched)
    && RollupsOk(now, durable, horizon, rollups)
  }

  ghost predicate SegmentsOk(cfg: Config, now: Time, durable: map<Rec, Time>, store: Store) {
    forall n :: n in store ==> SegmentOk(cfg, now, durable, n, store[n])
  }

  ghost predicate DeltasOk(
    cfg: Config, now: Time, durable: map<Rec, Time>, store: Store, horizon: Time, covered: map<string, set<Rec>>,
        run: Option<DeltaRun>)
  {
    && horizon <= now
    && SegmentsOk(cfg, now, durable, store)
    && StoreOk(cfg, durable, store, horizon)
    && CoveredOk(cfg, durable, store, horizon, covered)
    && (run.Some? ==> RunOk(cfg, now, durable, store, horizon, run.value))
  }

  /** The rehydrated copy has every segment past its own slack window that the old one had. */
  ghost predicate CatchesUp(c: CacheState, next: CacheState) {
    c.applied.Some? && c.applied.value >= FirstName(next.watermark) ==>
      next.applied.Some? && next.applied.value >= c.applied.value
  }

  ghost predicate CachesOk(store: Store, cache: Option<CacheState>, origin: Option<Base>, sync: Sync) {
    && (cache.Some? <==> origin.Some?)
    && (cache.Some? ==> CacheOk(store, origin.value, cache.value))
    && (sync.Replayed? ==> CacheOk(store, sync.base, sync.next))
    && (sync.Replayed? && cache.Some? ==> CatchesUp(cache.value, sync.next))
    && (sync.Applying? ==> cache.Some? && TodoOk(store, cache.value, sync.todo))
  }

  ghost predicate Inv(cfg: Config, s: System) {
    && SrcOk(cfg, s.now, s.durable, s.src)
    && BasesOk(s.now, s.durable, s.horizon, s.base, s.rollups, s.origin, SyncBase(s.sync))
    && DeltasOk(cfg, s.now, s.durable, s.store, s.horizon, s.covered, s.run)
    && CachesOk(s.store, s.cache, s.origin, s.sync)
  }

  // ----- when rollups do not overlap -----

  /** No rollup begins while another is in progress. */
  ghost predicate RollupsApart(states: seq<System>, trace: seq<Action>) {
    forall i :: 0 <= i < |trace| && i < |states| && trace[i].RollupBegin? ==> states[i].rollups == map[]
  }

  /** `x` was published no later than `b`: what it holds was durable when b's watermark was taken. */
  ghost predicate NotNewer(x: Base, b: Base) {
    x == b || (x.watermark <= b.watermark && forall k :: k in x.rows ==> x.rows[k] in b.seen)
  }

  /** x was published before the rollup took its watermark. */
  ghost predicate Precedes(x: Base, r: Rollup) {
    x.watermark <= r.watermark && forall k :: k in x.rows ==> x.rows[k] in r.seen
  }

  ghost predicate NoneNewer(x: Option<Base>, y: Option<Base>) {
    x.Some? && y.Some? ==> NotNewer(x.value, y.value)
  }

  ghost predicate AllPrecede(x: Option<Base>, rollups: map<int, Rollup>) {
    forall id :: id in rollups && x.Some? ==> Precedes(x.value, rollups[id])
  }

  /** Every base in use is no newer than the published one and precedes the rollup in
      progress, and the served one is no newer than the one being downloaded. */
  ghost predicate InOrder(base: Option<Base>, rollups: map<int, Rollup>, origin: Option<Base>, fetched: Option<Base>) {
    && (forall id, id' :: id in rollups && id' in rollups ==> id == id')
    && (origin.Some? || fetched.Some? ==> base.Some?)
    && NoneNewer(origin, base) && NoneNewer(fetched, base) && NoneNewer(origin, fetched)
    && AllPrecede(base, rollups) && AllPrecede(origin, rollups) && AllPrecede(fetched, rollups)
  }

  ghost predicate Ordered(s: System) {
    InOrder(s.base, s.rollups, s.origin, SyncBase(s.sync))
  }
}
