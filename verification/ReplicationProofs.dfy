/** Every step of the replication protocol keeps its invariant. */
module ReplicationProofs {
  import opened Upserts
  import opened Convergence
  import opened Segments
  import opened Replication
  import opened Options

  /** Time passes and writes become durable no earlier than now. */
  ghost predicate Grows(now: Time, durable: map<Rec, Time>, now': Time, durable': map<Rec, Time>) {
    && now <= now'
    && (forall d :: d in durable ==> d in durable' && durable'[d] == durable[d])
    && (forall d :: d in durable' && d !in durable ==> now <= durable'[d] <= now')
  }

  lemma GrowsKeeps(cfg: Config, s: System, now': Time, durable': map<Rec, Time>)
    requires Inv(cfg, s) && Grows(s.now, s.durable, now', durable')
    ensures BasesOk(now', durable', s.horizon, s.base, s.rollups, s.origin, SyncBase(s.sync))
    ensures DeltasOk(cfg, now', durable', s.store, s.horizon, s.covered, s.run)
  {
    forall n | n in s.store ensures SegmentOk(cfg, now', durable', n, s.store[n]) {
      assert SegmentOk(cfg, s.now, s.durable, n, s.store[n]);
    }
    CoverageGrows(cfg, s.durable, durable', s.store, s.horizon, s.covered);
  }

  lemma CoverageGrows(cfg: Config, durable: map<Rec, Time>, durable': map<Rec, Time>, store: Store, horizon: Time,
                      covered: map<string, set<Rec>>)
    requires StoreOk(cfg, durable, store, horizon) && CoveredOk(cfg, durable, store, horizon, covered)
    requires forall d :: d in durable ==> d in durable' && durable'[d] == durable[d]
    ensures StoreOk(cfg, durable', store, horizon) && CoveredOk(cfg, durable', store, horizon, covered)
  {
    HorizonGrows(cfg, durable, durable', store, horizon, horizon, covered);
  }

  lemma HorizonGrows(cfg: Config, durable: map<Rec, Time>, durable': map<Rec, Time>, store: Store, horizon: Time,
                     horizon': Time, covered: map<string, set<Rec>>)
    requires StoreOk(cfg, durable, store, horizon) && CoveredOk(cfg, durable, store, horizon, covered)
             && horizon <= horizon'
    requires forall d :: d in durable ==> d in durable' && durable'[d] == durable[d]
    ensures StoreOk(cfg, durable', store, horizon') && CoveredOk(cfg, durable', store, horizon', covered)
  {
    forall n, d | n in store && Saw(store[n].saw, d) && ScanClock(cfg, d).Val?
        ensures Covered(durable', store, horizon', d, n) {
      assert Covered(durable, store, horizon, d, n);
    }
    forall d | Saw(covered, d) && ScanClock(cfg, d).Val?
      ensures exists n :: (n in store || store == map[]) && Covered(durable', store, horizon', d, n)
    {
      var n :| (n in store || store == map[]) && Covered(durable, store, horizon, d, n);
      assert Covered(durable', store, horizon', d, n);
    }
  }

  lemma TickKeeps(cfg: Config, s: System, to: Time)
    requires Inv(cfg, s) && Enabled(cfg, s, Tick(to))
    ensures Inv(cfg, Do(cfg, s, Tick(to)))
  {
    GrowsKeeps(cfg, s, to, s.durable);
    hide BasesOk, DeltasOk, CachesOk;
  }

  lemma WriteKeeps(cfg: Config, s: System, r: Rec)
    requires Inv(cfg, s) && Enabled(cfg, s, Write(r))
    ensures Inv(cfg, Do(cfg, s, Write(r)))
  {
    hide BasesOk, DeltasOk, CachesOk, SrcOk;
    var t := Do(cfg, s, Write(r));
    GrowsKeeps(cfg, s, t.now, t.durable);
    WriteKeepsSource(cfg, s.now, s.durable, s.src, r);
  }

  lemma WriteKeepsSource(cfg: Config, now: Time, durable: map<Rec, Time>, src: map<Key, Rec>, r: Rec)
    requires SrcOk(cfg, now, durable, src) && r.key.table in cfg.clocks && r !in durable
    requires ScanClock(cfg, r).Val? ==> now <= ScanClock(cfg, r).rank + cfg.visibility
    requires MayFollow(cfg, src, r)
    ensures SrcOk(cfg, now, durable[r := now], src[r.key := r])
  {
    var durable', src' := durable[r := now], src[r.key := r];
    forall d | d in durable' ensures Current(cfg, src', d) {
      if d != r { assert Current(cfg, src, d); }
    }
  }

  // ----- rollups -----

  lemma RollupBeginKeeps(cfg: Config, s: System, id: int)
    requires Inv(cfg, s) && Enabled(cfg, s, RollupBegin(id))
    ensures Inv(cfg, Do(cfg, s, RollupBegin(id)))
  {
    assert s.horizon <= s.now;
    hide DeltasOk, CachesOk, UsedBaseOk;
    var r := Rollup(s.now, s.durable.Keys, {}, []);
    assert RollupOk(s.now, s.durable, s.horizon, r);
    RollupAdded(s.now, s.durable, s.horizon, s.rollups, id, r);
  }

  lemma RollupAdded(now: Time, durable: map<Rec, Time>, horizon: Time, rollups: map<int, Rollup>, id: int, r: Rollup)
    requires RollupsOk(now, durable, horizon, rollups) && RollupOk(now, durable, horizon, r)
    ensures RollupsOk(now, durable, horizon, rollups[id := r])
  {
    hide RollupOk;
  }

  lemma RollupRemoved(now: Time, durable: map<Rec, Time>, horizon: Time, rollups: map<int, Rollup>, id: int)
    requires RollupsOk(now, durable, horizon, rollups)
    ensures RollupsOk(now, durable, horizon, rollups - {id})
  {
    hide RollupOk;
  }

  lemma RollupScanKeeps(cfg: Config, s: System, id: int, tb: string, found: seq<Rec>)
    requires Inv(cfg, s) && Enabled(cfg, s, RollupScan(id, tb, found))
    ensures Inv(cfg, Do(cfg, s, RollupScan(id, tb, found)))
  {
    ScanKeepsRollup(cfg, s.now, s.durable, s.src, s.horizon, s.rollups[id], tb, found);
    RollupAdded(s.now, s.durable, s.horizon, s.rollups, id, Scanned(s.rollups[id], tb, found));
    hide SrcOk, DeltasOk, CachesOk, UsedBaseOk, RollupsOk;
  }

  lemma ScanKeepsRollup(cfg: Config, now: Time, durable: map<Rec, Time>, src: map<Key, Rec>, horizon: Time, r: Rollup,
                        tb: string, found: seq<Rec>)
    requires SrcOk(cfg, now, durable, src) && RollupOk(now, durable, horizon, r) && Scans(cfg, src, tb, None, found)
    ensures RollupOk(now, durable, horizon, Scanned(r, tb, found))
  {
    var r' := Scanned(r, tb, found);
    forall d | d in r'.seen && d.key.table in r'.scanned ensures Carries(r'.recs, d) {
      if d.key.table in r.scanned {
        var q :| q in r.recs && q.key == d.key && Wins(q.stamp, d.stamp);
        assert q in r'.recs;
      } else {
        assert Current(cfg, src, d) && src[d.key] in found;
        assert src[d.key] in r'.recs;
      }
    }
  }

  lemma RollupPublishKeeps(cfg: Config, s: System, id: int, tag: int, era: int)
    requires Inv(cfg, s) && Enabled(cfg, s, RollupPublish(id, tag, era))
    ensures Inv(cfg, Do(cfg, s, RollupPublish(id, tag, era)))
  {
    hide DeltasOk, CachesOk;
    PublishedIsOk(cfg, s.now, s.durable, s.src, s.horizon, s.rollups[id], tag, era);
    RollupRemoved(s.now, s.durable, s.horizon, s.rollups, id);
    hide SrcOk, RollupsOk, BaseOk;
  }

  /** A rollup that has scanned every table makes a sound base. */
  lemma PublishedIsOk(cfg: Config, now: Time, durable: map<Rec, Time>, src: map<Key, Rec>, horizon: Time, r: Rollup,
                      tag: int, era: int)
    requires SrcOk(cfg, now, durable, src) && RollupOk(now, durable, horizon, r) && cfg.clocks.Keys <= r.scanned
    ensures BaseOk(now, durable, horizon, Published(r, tag, era))
  {
    var b := Published(r, tag, era);
    FoldAdvances(map[], r.recs);
    forall d | d in b.seen ensures Reflects(b.rows, d) {
      assert d in durable && Carries(r.recs, d);
      var q :| q in r.recs && q.key == d.key && Wins(q.stamp, d.stamp);
      assert Reflects(b.rows, q);
    }
  }

  // ----- delta runs -----

  lemma SinceResumes(cfg: Config, now: Time, durable: map<Rec, Time>, store: Store, horizon: Time)
    requires ValidConfig(cfg) && (store == map[] ==> now - cfg.bootstrap + cfg.visibility <= horizon)
    ensures ResumeOk(cfg, store, horizon, Since(cfg, now, store))
  {
    var names := Sorted(store.Keys);
    if store != map[] {
      var m, last := Max(store.Keys), names[|names| - 1];
      assert m in names;
      assert last in names;
      assert last == m;
    } else {
      assert store.Keys == {};
    }
  }

  lemma HorizonKeepsBases(
    now: Time, durable: map<Rec, Time>, horizon: Time, horizon': Time, base: Option<Base>, rollups: map<int, Rollup>,
    origin: Option<Base>, fetched: Option<Base>)
    requires BasesOk(now, durable, horizon, base, rollups, origin, fetched)
    requires horizon' == horizon || (ReachesBehind(horizon', base) && ReachesBehind(horizon', origin)
      && ReachesBehind(horizon', fetched) && forall id :: id in rollups ==> horizon' <= rollups[id].watermark)
    ensures BasesOk(now, durable, horizon', base, rollups, origin, fetched)
  {}

  lemma DeltaBeginKeeps(cfg: Config, s: System)
    requires ValidConfig(cfg) && Inv(cfg, s) && Enabled(cfg, s, DeltaBegin)
    ensures Inv(cfg, Do(cfg, s, DeltaBegin))
  {
    var t := Do(cfg, s, DeltaBegin);
    SinceResumes(cfg, s.now, s.durable, s.store, t.horizon);
    HorizonGrows(cfg, s.durable, s.durable, s.store, s.horizon, t.horizon, s.covered);
    HorizonKeepsBases(s.now, s.durable, s.horizon, t.horizon, s.base, s.rollups, s.origin, SyncBase(s.sync));
    FreshRunOk(cfg, s.now, s.durable, s.store, t.horizon);
  }

  lemma FreshRunOk(cfg: Config, now: Time, durable: map<Rec, Time>, store: Store, horizon: Time)
    requires forall n :: n in store ==> n < SegmentName(now)
    requires ResumeOk(cfg, store, horizon, Since(cfg, now, store))
    ensures RunOk(cfg, now, durable, store, horizon, DeltaRun(now, Since(cfg, now, store), [], map[]))
  {}

  lemma DeltaScanKeeps(cfg: Config, s: System, tb: string, found: seq<Rec>)
    requires Inv(cfg, s) && Enabled(cfg, s, DeltaScan(tb, found))
    ensures Inv(cfg, Do(cfg, s, DeltaScan(tb, found)))
  {
    ScanKeepsRun(cfg, s.now, s.durable, s.src, s.store, s.horizon, s.run.value, tb, found);
    hide SrcOk, BasesOk, CachesOk, RunOk, SegmentsOk, StoreOk, CoveredOk;
  }

  lemma ScanKeepsRun(cfg: Config, now: Time, durable: map<Rec, Time>, src: map<Key, Rec>, store: Store, horizon: Time,
                     r: DeltaRun, tb: string, found: seq<Rec>)
    requires SrcOk(cfg, now, durable, src) && RunOk(cfg, now, durable, store, horizon, r)
    requires now <= r.now + cfg.scan && Scans(cfg, src, tb, Some(r.since), found)
    ensures RunOk(cfg, now, durable, store, horizon, r.(recs := r.recs + found, saw := r.saw[tb := durable.Keys]))
  {
    hide ResumeOk;
    var r' := r.(recs := r.recs + found, saw := r.saw[tb := durable.Keys]);
    forall d | Saw(r'.saw, d) && AtOrAfter(cfg, d, Some(r.since)) ensures Carries(r'.recs, d) {
      if d.key.table == tb {
        assert Current(cfg, src, d);
        assert AtOrAfter(cfg, src[d.key], Some(r.since));
        assert src[d.key] in r'.recs;
      } else {
        assert Saw(r.saw, d);
        var q :| q in r.recs && q.key == d.key && Wins(q.stamp, d.stamp);
        assert q in r'.recs;
      }
    }
  }

  /** The run has scanned every table. */
  ghost predicate Completed(
    cfg: Config, now: Time, durable: map<Rec, Time>, store: Store, horizon: Time, r: DeltaRun)
  {
    && ValidConfig(cfg)
    && SegmentsOk(cfg, now, durable, store) && StoreOk(cfg, durable, store, horizon)
    && RunOk(cfg, now, durable, store, horizon, r)
    && r.saw.Keys == cfg.clocks.Keys
    && (forall d :: d in durable && ScanClock(cfg, d).Val? ==> durable[d] <= ScanClock(cfg, d).rank + cfg.visibility)
  }

  /** What a completed run's window leaves out is in earlier segments or in every base. */
  lemma RunCovers(cfg: Config, now: Time, durable: map<Rec, Time>, store: Store, horizon: Time, r: DeltaRun, d: Rec)
    requires Completed(cfg, now, durable, store, horizon, r)
    requires Saw(r.saw, d) && ScanClock(cfg, d).Val? && ScanClock(cfg, d).rank < r.since
    ensures store == map[] ==> d in durable && durable[d] < horizon
    ensures store != map[] ==> Covered(durable, store, horizon, d, Max(store.Keys))
  {
    assert d in durable;
    if store != map[] {
      var m := Max(store.Keys);
      assert m in store;
      assert SegmentOk(cfg, now, durable, m, store[m]);
      assert durable[d] < store[m].now;
      assert Saw(store[m].saw, d);
    }
  }

  lemma KeepsCovered(durable: map<Rec, Time>, store: Store, store': Store, horizon: Time, d: Rec, n: int, n': int)
    requires Covered(durable, store, horizon, d, n) && n <= n'
    requires forall m :: m in store ==> m in store' && store'[m] == store[m]
    ensures Covered(durable, store', horizon, d, n')
  {
    if m :| m in store && m <= n && Carries(store[m].recs, d) {
      assert m in store' && m <= n' && Carries(store'[m].recs, d);
    }
  }

  function Landed(store: Store, r: DeltaRun): Store {
    store[SegmentName(r.now) := Segment(r.recs, r.now, r.saw)]
  }

  lemma LandedCovers(cfg: Config, now: Time, durable: map<Rec, Time>, store: Store, horizon: Time, r: DeltaRun, d: Rec)
    requires Completed(cfg, now, durable, store, horizon, r)
    requires Saw(r.saw, d) && ScanClock(cfg, d).Val?
    ensures Covered(durable, Landed(store, r), horizon, d, SegmentName(r.now))
  {
    var n := SegmentName(r.now);
    if ScanClock(cfg, d).rank >= r.since {
      assert AtOrAfter(cfg, d, Some(r.since));
      assert n in Landed(store, r) && Carries(Landed(store, r)[n].recs, d);
    } else {
      RunCovers(cfg, now, durable, store, horizon, r, d);
      if store != map[] {
        KeepsCovered(durable, store, Landed(store, r), horizon, d, Max(store.Keys), n);
      }
    }
  }

  lemma QuietKeeps(cfg: Config, now: Time, durable: map<Rec, Time>, store: Store, horizon: Time, r: DeltaRun)
    requires Completed(cfg, now, durable, store, horizon, r) && r.recs == []
    ensures CoveredOk(cfg, durable, store, horizon, r.saw)
  {
    forall d | Saw(r.saw, d) && ScanClock(cfg, d).Val?
      ensures exists n :: (n in store || store == map[]) && Covered(durable, store, horizon, d, n)
    {
      assert !Carries(r.recs, d);
      assert !AtOrAfter(cfg, d, Some(r.since));
      RunCovers(cfg, now, durable, store, horizon, r, d);
      if store != map[] {
        assert Max(store.Keys) in store;
      } else {
        assert Covered(durable, store, horizon, d, 0);
      }
    }
  }

  lemma LandKeeps(cfg: Config, now: Time, durable: map<Rec, Time>, store: Store, horizon: Time, r: DeltaRun)
    requires Completed(cfg, now, durable, store, horizon, r)
    ensures StoreOk(cfg, durable, Landed(store, r), horizon)
    ensures CoveredOk(cfg, durable, Landed(store, r), horizon, r.saw)
    ensures SegmentsOk(cfg, now, durable, Landed(store, r))
  {
    var name, store' := SegmentName(r.now), Landed(store, r);
    forall n, d | n in store' && Saw(store'[n].saw, d) && ScanClock(cfg, d).Val?
        ensures Covered(durable, store', horizon, d, n) {
      if n == name {
        LandedCovers(cfg, now, durable, store, horizon, r, d);
      } else {
        KeepsCovered(durable, store, store', horizon, d, n, n);
      }
    }
    forall d | Saw(r.saw, d) && ScanClock(cfg, d).Val?
      ensures exists n :: (n in store' || store' == map[]) && Covered(durable, store', horizon, d, n)
    {
      LandedCovers(cfg, now, durable, store, horizon, r, d);
      assert name in store';
    }
    forall n | n in store' ensures SegmentOk(cfg, now, durable, n, store'[n]) {
      if n != name { assert SegmentOk(cfg, now, durable, n, store[n]); }
    }
  }

  /** A new last segment changes nothing already applied or listed. */
  lemma NewestKeepsApplied(store: Store, store': Store, watermark: Time, applied: Option<int>)
    requires applied.Some? ==> applied.value in store
    requires forall n :: n in store ==> n in store' && store'[n] == store[n]
    requires forall n, m :: n in store && m in store' && m !in store ==> n < m
    ensures AppliedNames(store', watermark, applied) == AppliedNames(store, watermark, applied)
    ensures RecordsOf(store', AppliedNames(store', watermark, applied)) ==
            RecordsOf(store, AppliedNames(store, watermark, applied))
  {
    if applied.Some? {
      var a := applied.value;
      assert (set n | n in store' && FirstName(watermark) <= n <= a) ==
             (set n | n in store && FirstName(watermark) <= n <= a);
    }
    var names := AppliedNames(store, watermark, applied);
    forall i | 0 <= i < |names| ensures names[i] in store && names[i] in store'
        && store[names[i]].recs == store'[names[i]].recs {
      SortedLists(set n | n in store && FirstName(watermark) <= n <= applied.value);
      assert names[i] in names;
    }
    RecordsFrame(store, store', names);
  }

  lemma NewestKeepsCaches(store: Store, store': Store, cache: Option<CacheState>, origin: Option<Base>, sync: Sync)
    requires CachesOk(store, cache, origin, sync)
    requires forall n :: n in store ==> n in store' && store'[n] == store[n]
    requires forall n, m :: n in store && m in store' && m !in store ==> n < m
    ensures CachesOk(store', cache, origin, sync)
  {
    if cache.Some? {
      NewestKeepsApplied(store, store', cache.value.watermark, cache.value.applied);
    }
    if sync.Replayed? {
      NewestKeepsApplied(store, store', sync.next.watermark, sync.next.applied);
    }
    if sync.Applying? && sync.todo != [] {
      NewestKeepsApplied(store, store', cache.value.watermark, Some(sync.todo[|sync.todo| - 1]));
    }
  }

  lemma NewNameIsLast(cfg: Config, now: Time, durable: map<Rec, Time>, store: Store, horizon: Time, r: DeltaRun)
    requires RunOk(cfg, now, durable, store, horizon, r)
    ensures forall n :: n in store ==> n < SegmentName(r.now)
  {
  }

  lemma DeltaLandKeeps(cfg: Config, s: System)
    requires ValidConfig(cfg) && Inv(cfg, s) && Enabled(cfg, s, DeltaLand)
    ensures Inv(cfg, Do(cfg, s, DeltaLand))
  {
    hide BasesOk, CachesOk, SegmentsOk, StoreOk, CoveredOk, RunOk;
    var t := Do(cfg, s, DeltaLand);
    NewNameIsLast(cfg, s.now, s.durable, s.store, s.horizon, s.run.value);
    if s.run.value.recs == [] {
      QuietKeeps(cfg, s.now, s.durable, s.store, s.horizon, s.run.value);
    } else {
      LandKeeps(cfg, s.now, s.durable, s.store, s.horizon, s.run.value);
    }
    NewestKeepsCaches(s.store, t.store, s.cache, s.origin, s.sync);
  }

  // ----- cache syncs -----

  lemma HydrateIsReplay(store: Store, b: Base, tag: int)
    ensures CacheOk(store, b, Hydrate(tag, b.watermark, b.rows, store))
    ensures forall n :: n in store && n >= FirstName(b.watermark) ==>
              Hydrate(tag, b.watermark, b.rows, store).applied.Some?
                  && n <= Hydrate(tag, b.watermark, b.rows, store).applied.value
  {
    var first := FirstName(b.watermark);
    var all := set n | n in store && n >= first;
    LastIsGreatest(all);
    var names := NewSegments(store, None, b.watermark);
    assert names == Sorted(all);
    if names != [] {
      var last := names[|names| - 1];
      assert (set n | n in store && first <= n <= last) == all;
      assert AppliedNames(store, b.watermark, Some(last)) == names;
    }
    forall n | n in store && n >= first ensures n in all {}
  }

  lemma ListIsRest(store: Store, c: CacheState)
    requires c.applied.Some? ==> c.applied.value in store && c.applied.value >= FirstName(c.watermark)
    ensures TodoOk(store, c, NewSegments(store, c.applied, c.watermark))
  {
    var todo := NewSegments(store, c.applied, c.watermark);
    if todo != [] {
      var first, last := FirstName(c.watermark), todo[|todo| - 1];
      var all := set n | n in store && first <= n <= last;
      if c.applied.None? {
        LastIsGreatest(set n | n in store && n >= first);
        assert all == set n | n in store && n >= first;
        assert [] + todo == todo;
      } else {
        var a := c.applied.value;
        var done, rest := set n | n in store && first <= n <= a, set n | n in store && n >= a && n != a;
        LastIsGreatest(rest);
        assert all == done + rest;
        SortedUnion(done, rest);
      }
    }
  }

  lemma ApplyExtendsPrefix(store: Store, b: Base, c: CacheState, todo: seq<int>)
    requires CacheOk(store, b, c) && TodoOk(store, c, todo) && todo != [] && todo[0] in store
    ensures CacheOk(store, b, ApplySegment(c, todo[0], store[todo[0]].recs))
    ensures TodoOk(store, ApplySegment(c, todo[0], store[todo[0]].recs), todo[1..])
  {
    NextIsPrefix(store, c.watermark, c.applied, todo);
    TodoShrinks(store, c, todo);
    ReplayOneMore(b.rows, store, AppliedNames(store, c.watermark, c.applied), todo[0]);
    hide Replay, AppliedNames, TodoOk;
  }

  lemma TodoShrinks(store: Store, c: CacheState, todo: seq<int>)
    requires TodoOk(store, c, todo) && todo != [] && todo[0] in store
    requires AppliedNames(store, c.watermark, Some(todo[0])) == AppliedNames(store, c.watermark, c.applied) + [todo[0]]
    ensures TodoOk(store, ApplySegment(c, todo[0], store[todo[0]].recs), todo[1..])
  {
    hide AppliedNames, Fold;
    if |todo| > 1 {
      var done := AppliedNames(store, c.watermark, c.applied);
      assert done + todo == done + [todo[0]] + todo[1..];
      assert todo[1..][|todo[1..]| - 1] == todo[|todo| - 1];
    }
  }

  lemma NextIsPrefix(store: Store, watermark: Time, applied: Option<int>, todo: seq<int>)
    requires todo != []
    requires AppliedNames(store, watermark, Some(todo[|todo| - 1])) == AppliedNames(store, watermark, applied) + todo
    ensures AppliedNames(store, watermark, Some(todo[0])) == AppliedNames(store, watermark, applied) + [todo[0]]
    ensures todo[0] >= FirstName(watermark)
  {
    var first, last := FirstName(watermark), todo[|todo| - 1];
    var all := set m | m in store && first <= m <= last;
    var upto := set m | m in store && first <= m <= todo[0];
    TailAscends(all, AppliedNames(store, watermark, applied), todo);
    hide Sorted;
    PrefixOfListing(all, AppliedNames(store, watermark, applied), todo, upto);
  }

  lemma TailAscends(all: set<int>, done: seq<int>, todo: seq<int>)
    requires todo != [] && Sorted(all) == done + todo
    ensures todo[0] <= todo[|todo| - 1]
  {
    SortedLists(all);
    assert (done + todo)[|done|] == todo[0] && (done + todo)[|done + todo| - 1] == todo[|todo| - 1];
  }

  lemma PrefixOfListing(all: set<int>, done: seq<int>, todo: seq<int>, upto: set<int>)
    requires todo != [] && Sorted(all) == done + todo
    requires forall x :: x in upto ==> x in all && x <= todo[0]
    requires forall x :: x in all && x <= todo[0] ==> x in upto
    ensures Sorted(upto) == done + [todo[0]] && todo[0] in all
  {
    FirstOfRest(done, todo);
    SortedLists(all);
    SortedPrefix(all, |done|, upto);
  }

  lemma FirstOfRest(done: seq<int>, todo: seq<int>)
    requires todo != []
    ensures (done + todo)[|done|] == todo[0] && todo[0] in done + todo
    ensures (done + todo)[..|done| + 1] == done + [todo[0]]
  {}

  lemma FetchKeepsBases(
    now: Time, durable: map<Rec, Time>, horizon: Time, base: Option<Base>, rollups: map<int, Rollup>,
        origin: Option<Base>)
    requires base.Some? && BasesOk(now, durable, horizon, base, rollups, origin, None)
    ensures BasesOk(now, durable, horizon, base, rollups, origin, base)
  {}

  lemma SyncFetchKeeps(cfg: Config, s: System)
    requires Inv(cfg, s) && Enabled(cfg, s, SyncFetch)
    ensures Inv(cfg, Do(cfg, s, SyncFetch))
  {
    hide SrcOk, BasesOk, DeltasOk, CachesOk;
    var t := Do(cfg, s, SyncFetch);
    RefusalKeeps(s.store, s.cache, s.origin, s.sync.tag, t.sync);
    FetchKeepsBases(s.now, s.durable, s.horizon, s.base, s.rollups, s.origin);
  }

  /** Remembering a refused tag touches nothing that is served. */
  lemma RefusalKeeps(store: Store, cache: Option<CacheState>, origin: Option<Base>, tag: int, sync: Sync)
    requires CachesOk(store, cache, origin, Hydrating(tag))
    requires sync.Idle? || sync.Fetched?
    ensures CachesOk(store, cache, origin, sync)
    ensures cache.Some? ==> CachesOk(store, Some(cache.value.(refusedTag := Some(tag))), origin, sync)
  {}

  lemma SyncSwapKeeps(cfg: Config, s: System)
    requires Inv(cfg, s) && Enabled(cfg, s, SyncSwap)
    ensures Inv(cfg, Do(cfg, s, SyncSwap))
  {
    hide SrcOk, BasesOk, DeltasOk, CachesOk;
    SwapKeepsBases(s.now, s.durable, s.horizon, s.base, s.rollups, s.origin, s.sync.base);
    SwapKeepsCaches(s.store, s.cache, s.origin, s.sync);
  }

  lemma SwapKeepsBases(
    now: Time, durable: map<Rec, Time>, horizon: Time, base: Option<Base>, rollups: map<int, Rollup>,
        origin: Option<Base>, fetched: Base)
    requires BasesOk(now, durable, horizon, base, rollups, origin, Some(fetched))
    ensures BasesOk(now, durable, horizon, base, rollups, Some(fetched), None)
  {
  }

  lemma SwapKeepsCaches(store: Store, cache: Option<CacheState>, origin: Option<Base>, sync: Sync)
    requires CachesOk(store, cache, origin, sync) && sync.Replayed?
    ensures CachesOk(store, Some(sync.next), Some(sync.base), Idle)
  {
  }

  lemma SyncStatKeeps(cfg: Config, s: System, a: Action)
    requires Inv(cfg, s) && Enabled(cfg, s, a) && (a.SyncStat? || a.SyncStop?)
    ensures Inv(cfg, Do(cfg, s, a))
  {
    hide SrcOk, BasesOk, DeltasOk, CachesOk;
    StatKeepsCaches(s.store, s.cache, s.origin, s.sync, Do(cfg, s, a).sync);
    DropFetched(s.now, s.durable, s.horizon, s.base, s.rollups, s.origin, SyncBase(s.sync));
  }

  lemma StatKeepsCaches(store: Store, cache: Option<CacheState>, origin: Option<Base>, sync: Sync, sync': Sync)
    requires CachesOk(store, cache, origin, sync) && (sync'.Idle? || sync'.Hydrating? || sync'.Listing?)
    ensures CachesOk(store, cache, origin, sync')
  {
  }

  lemma DropFetched(
    now: Time, durable: map<Rec, Time>, horizon: Time, base: Option<Base>, rollups: map<int, Rollup>,
        origin: Option<Base>, fetched: Option<Base>)
    requires BasesOk(now, durable, horizon, base, rollups, origin, fetched)
    ensures BasesOk(now, durable, horizon, base, rollups, origin, None)
  {
  }

  lemma SyncReplayKeeps(cfg: Config, s: System)
    requires Inv(cfg, s) && Enabled(cfg, s, SyncReplay)
    ensures Inv(cfg, Do(cfg, s, SyncReplay))
  {
    hide SrcOk, BasesOk, DeltasOk;
    HydrateIsReplay(s.store, s.sync.base, s.sync.tag);
    hide CacheOk, Hydrate;
  }

  lemma SyncListKeeps(cfg: Config, s: System)
    requires Inv(cfg, s) && Enabled(cfg, s, SyncList)
    ensures Inv(cfg, Do(cfg, s, SyncList))
  {
    hide SrcOk, BasesOk, DeltasOk, CachesOk, NewSegments;
    ListKeepsCaches(s.store, s.cache.value, s.origin);
  }

  lemma ListKeepsCaches(store: Store, c: CacheState, origin: Option<Base>)
    requires CachesOk(store, Some(c), origin, Listing)
    ensures CachesOk(store, Some(c), origin, Applying(NewSegments(store, c.applied, c.watermark)))
  {
    ListIsRest(store, c);
    hide NewSegments, TodoOk;
  }

  lemma SyncApplyKeeps(cfg: Config, s: System)
    requires Inv(cfg, s) && Enabled(cfg, s, SyncApply)
    ensures Inv(cfg, Do(cfg, s, SyncApply))
  {
    hide SrcOk, BasesOk, DeltasOk, CacheOk, TodoOk;
    ApplyExtendsPrefix(s.store, s.origin.value, s.cache.value, s.sync.todo);
  }

  lemma CrashKeeps(cfg: Config, s: System, a: Action)
    requires Inv(cfg, s) && Enabled(cfg, s, a) && (a.RollupCrash? || a.DeltaCrash?)
    ensures Inv(cfg, Do(cfg, s, a))
  {
    if a.RollupCrash? { RollupRemoved(s.now, s.durable, s.horizon, s.rollups, a.id); }
    hide SrcOk, CachesOk, BaseOk, RollupsOk, RunOk, SegmentsOk, StoreOk, CoveredOk;
  }

  lemma StepKeeps(cfg: Config, s: System, a: Action)
    requires ValidConfig(cfg) && Inv(cfg, s) && Enabled(cfg, s, a)
    ensures Inv(cfg, Do(cfg, s, a))
  {
    hide Inv;
    match a
    case Tick(to) => TickKeeps(cfg, s, to);
    case Write(r) => WriteKeeps(cfg, s, r);
    case RollupBegin(id) => RollupBeginKeeps(cfg, s, id);
    case RollupScan(id, tb, found) => RollupScanKeeps(cfg, s, id, tb, found);
    case RollupPublish(id, tag, era) => RollupPublishKeeps(cfg, s, id, tag, era);
    case RollupCrash(_) => CrashKeeps(cfg, s, a);
    case DeltaBegin => DeltaBeginKeeps(cfg, s);
    case DeltaScan(tb, found) => DeltaScanKeeps(cfg, s, tb, found);
    case DeltaLand => DeltaLandKeeps(cfg, s);
    case DeltaCrash => CrashKeeps(cfg, s, a);
    case SyncStat => SyncStatKeeps(cfg, s, a);
    case SyncFetch => SyncFetchKeeps(cfg, s);
    case SyncReplay => SyncReplayKeeps(cfg, s);
    case SyncList => SyncListKeeps(cfg, s);
    case SyncApply => SyncApplyKeeps(cfg, s);
    case SyncSwap => SyncSwapKeeps(cfg, s);
    case SyncStop => SyncStatKeeps(cfg, s, a);
  }

  /** The invariant holds in every state of every run. */
  lemma {:induction false} AlwaysInv(cfg: Config, states: seq<System>, trace: seq<Action>, i: nat)
    requires ValidConfig(cfg) && Behaves(cfg, states, trace) && i <= |trace|
    ensures Inv(cfg, states[i])
  {
    if i > 0 {
      AlwaysInv(cfg, states, trace, i - 1);
      StepKeeps(cfg, states[i - 1], trace[i - 1]);
    }
  }
}
