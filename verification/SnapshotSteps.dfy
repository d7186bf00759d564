/** A delta run that does not fail takes the steps of the replication protocol: it begins,
    scans every table with deltas, and lands (internal/snapshot/delta.go:43-115). */
module SnapshotSteps {
  import opened Upserts
  import opened Convergence
  import opened Segments
  import opened Replication
  import opened DocCache
  import opened Snapshots
  import opened Options

  // ----- the clocks of the registry -----

  /** The document's field that a table's bounded scan compares. */
  function ClockField(name: string): string {
    match name
    case "runs" => "$.Created"
    case "scratch_vms" => "$.updated"
    case "scratch_execs" => "$.updated"
    case "repo_metrics" => "$.updated"
    case _ => "$.Updated"
  }

  ghost function Clocks(defs: seq<TableDef>): map<string, string> {
    map i | 0 <= i < |defs| && HasDeltas(defs[i]) :: defs[i].name := ClockField(defs[i].name)
  }

  /** Which column the guard compares, and that it is the scan's clock, but for the runs. */
  lemma GuardedByTheClock(i: nat)
    requires i < |TABLES| && HasDeltas(TABLES[i])
    ensures HasUpdated(TABLES[i]) <==> TABLES[i].name != "runs"
    ensures forall j :: 0 <= j < |TABLES[i].cols| && TABLES[i].cols[j].name == "updated" ==>
              TABLES[i].cols[j].expr == ClockField(TABLES[i].name)
  {
    var cols := TABLES[i].cols;
    assert cols[|cols| - 1].name == "updated" || (|cols| > 1 && cols[|cols| - 2].name == "updated") || i == 1;
  }

  /** Where upserts are guarded, the stamp they compare is what the scan compares. */
  lemma StampIsScanClock(cfg: Config, i: nat, d: Doc)
    requires i < |TABLES| && HasDeltas(TABLES[i]) && cfg.clocks == Clocks(TABLES)
    ensures var r := RecOf(TABLES[i], d);
            if TABLES[i].name == "runs" then r.stamp == Null else r.stamp == ScanClock(cfg, r)
  {
    RegistryIsValid();
    GuardedByTheClock(i);
    ClockOfTable(TABLES, i);
    StampIsField(TABLES[i], d, ClockField(TABLES[i].name));
  }

  lemma StampIsField(td: TableDef, d: Doc, field: string)
    requires forall j :: 0 <= j < |td.cols| && td.cols[j].name == "updated" ==> td.cols[j].expr == field
    ensures StampOf(td, d) == if HasUpdated(td) && field in d.fields then d.fields[field] else Null
  {
    if HasUpdated(td) {
      var j :| 0 <= j < |td.cols| && td.cols[j].name == "updated";
      assert "updated" in ColNames(td);
      assert ColumnExpr(td, "updated") == Path(field);
      assert Cell(RowOf(td, d), "updated") == Extract(d, Path(field));
    }
  }

  lemma ClockOfTable(defs: seq<TableDef>, i: nat)
    requires Apart(defs) && i < |defs| && HasDeltas(defs[i])
    ensures defs[i].name in Clocks(defs) && Clocks(defs)[defs[i].name] == ClockField(defs[i].name)
  {
  }

  /** The tables whose upserts are guarded. */
  ghost function Guarded(defs: seq<TableDef>): set<string> {
    set i | 0 <= i < |defs| && HasUpdated(defs[i]) :: defs[i].name
  }

  /** With the defaults of the run, and writes durable and scans done within two minutes, the
      protocol's hypotheses on the configuration hold. */
  lemma DefaultsAreValid(schema: int)
    ensures ValidConfig(Config(Clocks(TABLES), Guarded(TABLES), DEFAULT_SLACK, DEFAULT_BOOTSTRAP, 120_000, 120_000,
                               schema))
  {
  }

  // ----- the steps -----

  /** The store holds what the objects mean. */
  ghost predicate Mirrors(store: Store, objects: Objects, defs: seq<TableDef>) {
    && store.Keys == objects.Keys
    && forall n :: n in store ==> store[n].recs == RecsOf(defs, objects[n])
  }

  lemma ResumesAtSince(cfg: Config, opts: DeltaOptions, now: Time, store: Store, objects: Objects, since: Time)
    requires store.Keys == objects.Keys && ResumesAt(opts, now, objects, since)
    requires cfg.slack == (if opts.slack == 0 then DEFAULT_SLACK else opts.slack)
    requires cfg.bootstrap == if opts.bootstrap == 0 then DEFAULT_BOOTSTRAP else opts.bootstrap
    ensures Since(cfg, now, store) == since
  {
    LastIsGreatest(store.Keys);
    assert |Sorted(store.Keys)| == |store.Keys|;
    if objects == map[] {
      assert store.Keys == {};
    } else {
      var newest :| newest in objects && (forall n :: n in objects ==> n <= newest)
                    && since == SegmentTime(newest) - cfg.slack;
      assert newest in store.Keys;
    }
  }

  lemma OneMoreStep(cfg: Config, states: seq<System>, trace: seq<Action>, a: Action)
    requires Steps(cfg, states, trace) && Enabled(cfg, states[|trace|], a)
    ensures Steps(cfg, states + [Do(cfg, states[|trace|], a)], trace + [a])
  {
    hide Enabled, Do;
  }

  /** What the source answers for one table, as the protocol's scan step finds it. */
  ghost function Found(src: Source, since: Time, defs: seq<TableDef>, td: TableDef): seq<Rec>
    requires Answer(src, td.name, since).Some?
  {
    RecsOf(defs, DocsIn(td.name, Answer(src, td.name, since).value))
  }

  /** The answers are scans of the source the protocol speaks of. */
  ghost predicate TrueAnswers(cfg: Config, current: map<Key, Rec>, src: Source, since: Time, defs: seq<TableDef>) {
    forall td :: td in defs && HasDeltas(td) ==>
      && Answer(src, td.name, since).Some?
      && Scans(cfg, current, td.name, Some(since), Found(src, since, defs, td))
  }

  lemma RecsOfConcat(defs: seq<TableDef>, a: seq<DeltaRecord>, b: seq<DeltaRecord>)
    ensures RecsOf(defs, a + b) == RecsOf(defs, a) + RecsOf(defs, b)
  {
  }

  /** The run has scanned the first n tables. */
  ghost predicate Scanning(s: System, t: System, src: Source, defs: seq<TableDef>, n: nat)
    requires n <= |defs|
  {
    && s.run.Some? && t.run.Some? && t == s.(run := t.run)
    && t.run.value.now == s.run.value.now && t.run.value.since == s.run.value.since
    && t.run.value.recs == RecsOf(defs, Changes(src, s.run.value.since, defs[..n]))
    && t.run.value.saw.Keys == Clocks(defs[..n]).Keys
  }

  /** Scanning the first n tables of the registry: one step for each that has deltas. */
  lemma {:induction false} ScanTables(cfg: Config, s: System, src: Source, defs: seq<TableDef>, n: nat)
    returns (states: seq<System>, trace: seq<Action>)
    requires cfg.clocks == Clocks(defs) && Apart(defs) && n <= |defs|
    requires s.run.Some? && s.now <= s.run.value.now + cfg.scan && s.run.value.recs == [] && s.run.value.saw == map[]
    requires TrueAnswers(cfg, s.src, src, s.run.value.since, defs)
    ensures Steps(cfg, states, trace) && states[0] == s && Scanning(s, states[|trace|], src, defs, n)
    ensures forall td :: td in defs[..n] && HasDeltas(td) ==>
              exists i :: 0 <= i < |trace| && IsScanOf(trace[i], src, s.run.value.since, defs, td)
  {
    if n == 0 {
      states, trace := [s], [];
    } else {
      states, trace := ScanTables(cfg, s, src, defs, n - 1);
      var td, t := defs[n - 1], states[|trace|];
      assert defs[..n] == defs[..n - 1] + [td];
      hide Steps, Scanning, Answer, HasDeltas, TrueAnswers;
      if HasDeltas(td) {
        CanScan(cfg, s, t, src, defs, n);
        var a := DeltaScan(td.name, Found(src, s.run.value.since, defs, td));
        OneMoreStep(cfg, states, trace, a);
        KeepsScans(trace, a, src, s.run.value.since, defs, n);
        states, trace := states + [Do(cfg, t, a)], trace + [a];
      } else {
        NothingToScan(s, t, src, defs, n);
      }
    }
  }

  /** The step is the scan of td with what the source answers. */
  ghost predicate IsScanOf(a: Action, src: Source, since: Time, defs: seq<TableDef>, td: TableDef) {
    Answer(src, td.name, since).Some? && a == DeltaScan(td.name, Found(src, since, defs, td))
  }

  lemma KeepsScans(trace: seq<Action>, a: Action, src: Source, since: Time, defs: seq<TableDef>, n: nat)
    requires 0 < n <= |defs| && IsScanOf(a, src, since, defs, defs[n - 1])
    requires forall td :: td in defs[..n - 1] && HasDeltas(td) ==>
               exists i :: 0 <= i < |trace| && IsScanOf(trace[i], src, since, defs, td)
    ensures forall td :: td in defs[..n] && HasDeltas(td) ==>
              exists i :: 0 <= i < |trace + [a]| && IsScanOf((trace + [a])[i], src, since, defs, td)
  {
    hide IsScanOf, HasDeltas;
    assert defs[..n] == defs[..n - 1] + [defs[n - 1]];
    var longer := trace + [a];
    forall td | td in defs[..n] && HasDeltas(td)
      ensures exists i :: 0 <= i < |longer| && IsScanOf(longer[i], src, since, defs, td)
    {
      if td in defs[..n - 1] {
        var i :| 0 <= i < |trace| && IsScanOf(trace[i], src, since, defs, td);
        assert longer[i] == trace[i];
      } else {
        assert longer[|trace|] == a;
      }
    }
  }

  lemma CanScan(cfg: Config, s: System, t: System, src: Source, defs: seq<TableDef>, n: nat)
    requires cfg.clocks == Clocks(defs) && Apart(defs) && 0 < n <= |defs| && HasDeltas(defs[n - 1])
    requires Scanning(s, t, src, defs, n - 1) && s.now <= s.run.value.now + cfg.scan
    requires TrueAnswers(cfg, s.src, src, s.run.value.since, defs)
    ensures Answer(src, defs[n - 1].name, s.run.value.since).Some?
    ensures var a := DeltaScan(defs[n - 1].name, Found(src, s.run.value.since, defs, defs[n - 1]));
            Enabled(cfg, t, a) && Scanning(s, Do(cfg, t, a), src, defs, n)
  {
    var td, since := defs[n - 1], s.run.value.since;
    assert td in defs;
    ClockOfTable(defs, n - 1);
    MoreClocks(defs, n);
    MoreChanges(src, since, defs, n);
    hide Answer, Scans, Clocks, Changes, RecsOf, HasDeltas, Found, TrueAnswers, Apart;
    assert Scans(cfg, t.src, td.name, Some(since), Found(src, since, defs, td));
    ScanIsEnabled(cfg, t, td.name, Found(src, since, defs, td));
    hide Enabled;
  }

  lemma ScanIsEnabled(cfg: Config, t: System, tb: string, found: seq<Rec>)
    requires t.run.Some? && t.now <= t.run.value.now + cfg.scan
    requires tb in cfg.clocks && Scans(cfg, t.src, tb, Some(t.run.value.since), found)
    ensures Enabled(cfg, t, DeltaScan(tb, found))
    ensures var run := t.run.value;
            Do(cfg, t, DeltaScan(tb, found)) ==
            t.(run := Some(DeltaRun(run.now, run.since, run.recs + found, run.saw[tb := t.durable.Keys])))
  {
    hide Scans;
  }

  lemma MoreChanges(src: Source, since: Time, defs: seq<TableDef>, n: nat)
    requires 0 < n <= |defs| && HasDeltas(defs[n - 1]) && Answer(src, defs[n - 1].name, since).Some?
    ensures RecsOf(defs, Changes(src, since, defs[..n]))
         == RecsOf(defs, Changes(src, since, defs[..n - 1])) + Found(src, since, defs, defs[n - 1])
  {
    hide Answer, HasDeltas;
    assert defs[..n][..n - 1] == defs[..n - 1];
    RecsOfConcat(defs, Changes(src, since, defs[..n - 1]),
                 DocsIn(defs[n - 1].name, Answer(src, defs[n - 1].name, since).value));
  }

  lemma NothingToScan(s: System, t: System, src: Source, defs: seq<TableDef>, n: nat)
    requires 0 < n <= |defs| && !HasDeltas(defs[n - 1]) && Scanning(s, t, src, defs, n - 1)
    ensures Scanning(s, t, src, defs, n)
  {
    hide Answer, HasDeltas, RecsOf;
    MoreClocks(defs, n);
    assert defs[..n][..n - 1] == defs[..n - 1];
    assert Changes(src, s.run.value.since, defs[..n - 1]) + [] == Changes(src, s.run.value.since, defs[..n - 1]);
  }

  lemma MoreClocks(defs: seq<TableDef>, n: nat)
    requires 0 < n <= |defs|
    ensures Clocks(defs[..n]).Keys == Clocks(defs[..n - 1]).Keys + if HasDeltas(defs[n - 1]) then {defs[n - 1].name}
                                                                                                  else {}
  {
    hide HasDeltas, ClockField;
    var first, more := defs[..n - 1], defs[..n];
    assert more == first + [defs[n - 1]];
    forall name ensures name in Clocks(more) <==>
                          name in Clocks(first) || (HasDeltas(defs[n - 1]) && name == defs[n - 1].name)
    {
      if name in Clocks(more) {
        var i :| 0 <= i < |more| && HasDeltas(more[i]) && more[i].name == name;
        assert i < n - 1 ==> first[i] == more[i];
      }
      if name in Clocks(first) {
        var i :| 0 <= i < |first| && HasDeltas(first[i]) && first[i].name == name;
        assert first[i] == more[i];
      }
      assert more[n - 1] == defs[n - 1];
    }
  }

  // ----- the whole run -----

  /** The objects after a run that found these changes. */
  ghost function Landed(objects: Objects, now: Time, changes: seq<DeltaRecord>): Objects {
    if changes == [] then objects else objects[SegmentName(now) := changes]
  }

  lemma LandMirrors(cfg: Config, t: System, objects: Objects, changes: seq<DeltaRecord>, defs: seq<TableDef>)
    requires Enabled(cfg, t, DeltaLand) && Mirrors(t.store, objects, defs) && t.run.value.recs == RecsOf(defs, changes)
    ensures Mirrors(Do(cfg, t, DeltaLand).store, Landed(objects, t.run.value.now, changes), defs)
  {
    assert |RecsOf(defs, changes)| == |changes|;
  }

  /** Some change is found exactly when some table has something new. */
  lemma {:induction false} NoChangesIff(src: Source, since: Time, defs: seq<TableDef>)
    requires forall td :: td in defs && HasDeltas(td) ==> Answer(src, td.name, since).Some?
    ensures Changes(src, since, defs) == [] <==>
              forall td :: td in defs && HasDeltas(td) ==> Answer(src, td.name, since) == Some([])
  {
    hide Answer, HasDeltas;
    if defs != [] {
      var init, last := defs[..|defs| - 1], defs[|defs| - 1];
      assert defs == init + [last];
      NoChangesIff(src, since, init);
      if HasDeltas(last) {
        assert |DocsIn(last.name, Answer(src, last.name, since).value)| == |Answer(src, last.name, since).value|;
      }
    }
  }

  /** What Delta does when it does not fail, as steps of the protocol: with a registry whose
      tables are the protocol's, and answers that are scans of its source, the run begins,
      scans every table with deltas, and lands; and the objects Delta leaves are those the
      protocol's store then means. */
  lemma DeltaTakesSteps(cfg: Config, s: System, src: Source, opts: DeltaOptions, objects: Objects, since: Time)
    returns (states: seq<System>, trace: seq<Action>)
    requires cfg.clocks == Clocks(TABLES) && 0 <= cfg.scan
    requires cfg.slack == (if opts.slack == 0 then DEFAULT_SLACK else opts.slack)
    requires cfg.bootstrap == if opts.bootstrap == 0 then DEFAULT_BOOTSTRAP else opts.bootstrap
    requires Enabled(cfg, s, DeltaBegin) && Mirrors(s.store, objects, TABLES) && ResumesAt(opts, s.now, objects, since)
    requires TrueAnswers(cfg, s.src, src, since, TABLES)
    ensures Steps(cfg, states, trace) && states[0] == s
    ensures |trace| >= 2 && trace[0] == DeltaBegin && trace[|trace| - 1] == DeltaLand
    ensures forall td :: td in TABLES && HasDeltas(td) ==>
              exists i :: 0 < i < |trace| - 1 && IsScanOf(trace[i], src, since, TABLES, td)
    ensures Mirrors(states[|trace|].store,
                    if NothingNew(src, since) then objects
                    else objects[SegmentName(s.now) := Changes(src, since, TABLES)], TABLES)
    ensures states[|trace|].covered.Keys == cfg.clocks.Keys && states[|trace|].run.None?
  {
    ResumesAtSince(cfg, opts, s.now, s.store, objects, since);
    RegistryIsValid();
    var defs := TABLES;
    NoChangesIff(src, since, defs);
    states, trace := RunTakesSteps(cfg, s, src, defs, objects, since);
  }

  lemma RunTakesSteps(cfg: Config, s: System, src: Source, defs: seq<TableDef>, objects: Objects, since: Time)
    returns (states: seq<System>, trace: seq<Action>)
    requires cfg.clocks == Clocks(defs) && Apart(defs) && 0 <= cfg.scan
    requires Enabled(cfg, s, DeltaBegin) && Mirrors(s.store, objects, defs) && Since(cfg, s.now, s.store) == since
    requires TrueAnswers(cfg, s.src, src, since, defs)
    ensures Steps(cfg, states, trace) && states[0] == s
    ensures |trace| >= 2 && trace[0] == DeltaBegin && trace[|trace| - 1] == DeltaLand
    ensures forall td :: td in defs && HasDeltas(td) ==>
              exists i :: 0 < i < |trace| - 1 && IsScanOf(trace[i], src, since, defs, td)
    ensures Mirrors(states[|trace|].store, Landed(objects, s.now, Changes(src, since, defs)), defs)
    ensures states[|trace|].covered.Keys == cfg.clocks.Keys && states[|trace|].run.None?
  {
    var begun := Do(cfg, s, DeltaBegin);
    var scans, scanning := ScanTables(cfg, begun, src, defs, |defs|);
    var last := scans[|scanning|];
    assert defs[..|defs|] == defs;
    CanLand(cfg, begun, last, src, defs, objects);
    hide Scanning, Mirrors, TrueAnswers, Clocks, Answer, HasDeltas, IsScanOf;
    OneMoreStep(cfg, scans, scanning, DeltaLand);
    BeginFirst(cfg, s, scans + [Do(cfg, last, DeltaLand)], scanning + [DeltaLand]);
    states := [s] + (scans + [Do(cfg, last, DeltaLand)]);
    trace := [DeltaBegin] + (scanning + [DeltaLand]);
    forall td | td in defs && HasDeltas(td)
      ensures exists i :: 0 < i < |trace| - 1 && IsScanOf(trace[i], src, since, defs, td)
    {
      var i :| 0 <= i < |scanning| && IsScanOf(scanning[i], src, since, defs, td);
      assert trace[i + 1] == scanning[i];
    }
  }

  lemma CanLand(cfg: Config, begun: System, last: System, src: Source, defs: seq<TableDef>, objects: Objects)
    requires cfg.clocks == Clocks(defs) && Scanning(begun, last, src, defs, |defs|)
    requires Mirrors(begun.store, objects, defs)
    ensures Enabled(cfg, last, DeltaLand)
    ensures var t := Do(cfg, last, DeltaLand);
            && t.covered.Keys == cfg.clocks.Keys && t.run.None?
            && Mirrors(t.store, Landed(objects, begun.run.value.now, Changes(src, begun.run.value.since, defs)), defs)
  {
    assert defs[..|defs|] == defs;
    LandMirrors(cfg, last, objects, Changes(src, begun.run.value.since, defs), defs);
    hide Mirrors, Clocks, Changes, RecsOf;
  }

  lemma BeginFirst(cfg: Config, s: System, states: seq<System>, trace: seq<Action>)
    requires Enabled(cfg, s, DeltaBegin) && Steps(cfg, states, trace) && states[0] == Do(cfg, s, DeltaBegin)
    ensures Steps(cfg, [s] + states, [DeltaBegin] + trace)
  {
    hide Enabled, Do;
    var longer, more := [s] + states, [DeltaBegin] + trace;
    forall i | 0 <= i < |more| ensures Enabled(cfg, longer[i], more[i])
        && longer[i + 1] == Do(cfg, longer[i], more[i]) {
      if i > 0 { assert more[i] == trace[i - 1] && longer[i] == states[i - 1] && longer[i + 1] == states[i]; }
    }
  }
}
