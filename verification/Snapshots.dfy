/** The snapshot's registry of tables and the delta run over it
    (internal/snapshot/tables.go, source.go, delta.go). */
module Snapshots {
  import opened Upserts
  import opened Convergence
  import opened Segments
  import opened Replication
  import opened DocCache
  import opened Options

  // ----- the registry -----

  /** Tables: the columns the write statement extracts and the key; derived tables have none. */
  const TABLES: seq<TableDef> := [
    TableDef("attempts",
             [Col("ecosystem", "$.Ecosystem"), Col("package", "$.Package"), Col("version", "$.Version"),
              Col("artifact", "$.Artifact"), Col("run_id", "$.RunID"), Col("updated", "$.Updated"),
              Col("strategy_type", "$.Strategy")],
             ["ecosystem", "package", "version", "artifact", "run_id"]),
    TableDef("runs", [Col("run_id", "$.ID")], ["run_id"]),
    TableDef("agent_sessions", [Col("session_id", "$.ID"), Col("updated", "$.Updated")], ["session_id"]),
    TableDef("agent_iterations", [Col("session_id", "$.SessionID"), Col("number", "$.Number"),
                                  Col("updated", "$.Updated")],
             ["session_id", "number"]),
    TableDef("scratch_vms", [Col("scratch_id", "$.id"), Col("updated", "$.updated")], ["scratch_id"]),
    TableDef("scratch_execs", [Col("exec_id", "$.id"), Col("updated", "$.updated")], ["exec_id"]),
    TableDef("repo_metrics", [Col("uri", "$.uri"), Col("updated", "$.updated")], ["uri"]),
    TableDef("package_signals", [Col("ecosystem", "$.Ecosystem"), Col("package", "$.Package")],
             ["ecosystem", "package"]),
    TableDef("cost_observations", [], []),
    TableDef("ecosystem_daily", [], [])
  ]

  /** A doc table other than the priority signals, which are rewritten whole by rollups. */
  predicate HasDeltas(td: TableDef) {
    td.cols != [] && td.name != "package_signals"
  }

  /** Where a name is in the registry. */
  function Place(name: string): nat {
    match name
    case "attempts" => 0
    case "runs" => 1
    case "agent_sessions" => 2
    case "agent_iterations" => 3
    case "scratch_vms" => 4
    case "scratch_execs" => 5
    case "repo_metrics" => 6
    case "package_signals" => 7
    case "cost_observations" => 8
    case _ => 9
  }

  lemma EachHasItsPlace(i: nat)
    requires i < |TABLES|
    ensures Place(TABLES[i].name) == i
  {
  }

  /** Names are distinct and every doc table is one the write statement can be built for. */
  lemma RegistryIsValid()
    ensures ValidDefs(TABLES)
    ensures Apart(TABLES)
  {
    forall td | td in TABLES && |td.cols| > 0 ensures ValidTable(td) {
      var i :| 0 <= i < |TABLES| && TABLES[i] == td;
      EachIsValid(i);
    }
    forall i, j | 0 <= i < j < |TABLES| ensures TABLES[i].name != TABLES[j].name {
      EachHasItsPlace(i);
      EachHasItsPlace(j);
    }
  }

  lemma ColumnsApart(i: nat)
    requires i < |TABLES|
    ensures forall j :: 0 <= j < |TABLES[i].cols| ==> TABLES[i].cols[j].name != "raw"
    ensures forall j, k :: 0 <= j < k < |TABLES[i].cols| ==> TABLES[i].cols[j].name != TABLES[i].cols[k].name
  {
  }

  /** The key's columns are the first ones. */
  lemma KeyFirst(i: nat)
    requires i < |TABLES|
    ensures |TABLES[i].pk| <= |TABLES[i].cols| && (TABLES[i].cols != [] ==> TABLES[i].pk != [])
    ensures forall k :: 0 <= k < |TABLES[i].pk| ==> TABLES[i].cols[k].name == TABLES[i].pk[k]
  {
  }

  lemma EachIsValid(i: nat)
    requires i < |TABLES| && |TABLES[i].cols| > 0
    ensures ValidTable(TABLES[i])
  {
    ColumnsApart(i);
    KeyFirst(i);
    var td := TABLES[i];
    hide TABLES;
    forall p | p in td.pk ensures exists j :: 0 <= j < |td.cols| && td.cols[j].name == p {
      var k :| 0 <= k < |td.pk| && td.pk[k] == p;
      assert td.cols[k].name == p;
    }
  }

  // ----- the source -----

  type Scan = Time -> Option<seq<Doc>>

  /** The bounded scans of the live store; None is an error. */
  datatype Source = Source(attempts: Scan, runs: Scan, sessions: Scan, iterations: Scan, scratches: Scan, execs: Scan,
                           repoMetrics: Scan)

  /** What the source holds for a table, at or after a time. */
  function Answer(src: Source, name: string, since: Time): Option<seq<Doc>> {
    match name
    case "attempts" => src.attempts(since)
    case "runs" => src.runs(since)
    case "agent_sessions" => src.sessions(since)
    case "agent_iterations" => src.iterations(since)
    case "scratch_vms" => src.scratches(since)
    case "scratch_execs" => src.execs(since)
    case "repo_metrics" => src.repoMetrics(since)
    case _ => None
  }

  /** Every table with deltas answers. */
  ghost predicate AllAnswer(src: Source, since: Time) {
    forall td :: td in TABLES && HasDeltas(td) ==> Answer(src, td.name, since).Some?
  }

  /** No table with deltas has anything new. */
  ghost predicate NothingNew(src: Source, since: Time) {
    forall td :: td in TABLES && HasDeltas(td) ==> Answer(src, td.name, since) == Some([])
  }

  /** What the source answers for the tables of these definitions that have deltas, in their order. */
  ghost function Changes(src: Source, since: Time, defs: seq<TableDef>): seq<DeltaRecord> {
    if defs == [] then []
    else
      var td := defs[|defs| - 1];
      Changes(src, since, defs[..|defs| - 1])
      + if HasDeltas(td) && Answer(src, td.name, since).Some? then DocsIn(td.name, Answer(src, td.name, since).value)
        else []
  }

  /** A record is in the changes exactly when its table has deltas and the source answered it there. */
  lemma {:induction false} ChangesAre(src: Source, since: Time, defs: seq<TableDef>, r: DeltaRecord)
    ensures r in Changes(src, since, defs) <==>
            exists td :: td in defs && HasDeltas(td) && td.name == r.table
                         && Answer(src, td.name, since).Some? && r.doc in Answer(src, td.name, since).value
  {
    if defs != [] {
      var init, last := defs[..|defs| - 1], defs[|defs| - 1];
      assert defs == init + [last];
      ChangesAre(src, since, init, r);
      if Answer(src, last.name, since).Some? {
        var docs := Answer(src, last.name, since).value;
        InBatch(last.name, docs, r);
      }
    }
  }

  lemma InBatch(table: string, docs: seq<Doc>, r: DeltaRecord)
    ensures r in DocsIn(table, docs) <==> r.table == table && r.doc in docs
  {
    if r.table == table && r.doc in docs {
      var i :| 0 <= i < |docs| && docs[i] == r.doc;
      assert DocsIn(table, docs)[i] == r;
    }
  }

  // ----- a delta run -----

  /** Zero stands for the default: the current time, two minutes, a day. */
  datatype DeltaOptions = DeltaOptions(now: Time, slack: Time, bootstrap: Time)

  const DEFAULT_SLACK: Time := 2 * 60 * SECOND
  const DEFAULT_BOOTSTRAP: Time := 24 * 60 * 60 * SECOND

  datatype DeltaResult = Wrote(since: Time, name: int) | Quiet(since: Time) | Failed

  /** The time of the newest segment there is less the slack, or the bootstrap window. */
  ghost predicate ResumesAt(opts: DeltaOptions, now: Time, objects: Objects, since: Time) {
    if objects == map[] then since == now - (if opts.bootstrap == 0 then DEFAULT_BOOTSTRAP else opts.bootstrap)
    else
      exists newest :: newest in objects && (forall n :: n in objects ==> n <= newest)
                       && since == SegmentTime(newest) - (if opts.slack == 0 then DEFAULT_SLACK else opts.slack)
  }

  /** Listing the segments and resuming from the last name. */
  method Resume(opts: DeltaOptions, now: Time, objects: Objects) returns (since: Time)
    ensures ResumesAt(opts, now, objects, since)
  {
    var slack := opts.slack;
    if slack == 0 { slack := DEFAULT_SLACK; }
    var bootstrap := opts.bootstrap;
    if bootstrap == 0 { bootstrap := DEFAULT_BOOTSTRAP; }
    var segs := Sorted(objects.Keys);
    since := now - bootstrap;
    if |segs| > 0 {
      LastIsGreatest(objects.Keys);
      since := SegmentTime(segs[|segs| - 1]) - slack;
    }
  }

  /** Delta: recover the resume point from the newest segment name, scan every table with
      deltas from there, and write one segment named for the start of the run. It fails
      exactly when the listing, a scan or the write does; a run that found nothing writes
      nothing. */
  method Delta(opts: DeltaOptions, clock: Time, src: Source, dest: Bucket, listable: bool, writable: bool)
    returns (res: DeltaResult, ghost since: Time)
    modifies dest
    ensures ResumesAt(opts, if opts.now == 0 then clock else opts.now, old(dest.objects), since)
    ensures var name := SegmentName(if opts.now == 0 then clock else opts.now);
            if !listable || !AllAnswer(src, since) || !(writable || NothingNew(src, since)) then
              res == Failed && dest.objects == old(dest.objects)
            else if NothingNew(src, since) then
              res == Quiet(since) && dest.objects == old(dest.objects)
            else
              res == Wrote(since, name) && dest.objects == old(dest.objects)[name := Changes(src, since, TABLES)]
  {
    hide ResumesAt, AllAnswer, NothingNew, Changes, SegmentRecords, Landable, NothingIn, SegmentName;
    var now := opts.now;
    if now == 0 { now := clock; }
    var from := Resume(opts, now, dest.objects);
    since := from;
    if !listable {
      return Failed, since;
    }
    AnswersNeeded(src, since);
    var attempts := src.attempts(from);
    if attempts.None? { return Failed, since; }
    var runs := src.runs(from);
    if runs.None? { return Failed, since; }
    var sessions := src.sessions(from);
    if sessions.None? { return Failed, since; }
    var iterations := src.iterations(from);
    if iterations.None? { return Failed, since; }
    var scratches := src.scratches(from);
    if scratches.None? { return Failed, since; }
    var execs := src.execs(from);
    if execs.None? { return Failed, since; }
    var repoMetrics := src.repoMetrics(from);
    if repoMetrics.None? { return Failed, since; }
    var tables := map[
      "attempts" := attempts.value,
      "runs" := runs.value,
      "agent_sessions" := sessions.value,
      "agent_iterations" := iterations.value,
      "scratch_vms" := scratches.value,
      "scratch_execs" := execs.value,
      "repo_metrics" := repoMetrics.value
    ];
    assert forall i: nat :: i < 7 ==> NameAt(i) in tables && Nth(src, i, from) == Some(tables[NameAt(i)]);
    assert forall name :: name in tables ==> NameAt(Place(name)) == name && Place(name) < 7;
    CollectedIs(src, from, tables);
    var ok, wrote := WriteSegment(dest, now, TABLES, tables, writable);
    if !ok {
      return Failed, since;
    }
    res := if wrote then Wrote(from, SegmentName(now)) else Quiet(from);
  }

  /** The i-th bounded scan, in the order of the registry. */
  function Nth(src: Source, i: nat, since: Time): Option<seq<Doc>> {
    match i
    case 0 => src.attempts(since)
    case 1 => src.runs(since)
    case 2 => src.sessions(since)
    case 3 => src.iterations(since)
    case 4 => src.scratches(since)
    case 5 => src.execs(since)
    case 6 => src.repoMetrics(since)
    case _ => None
  }

  /** The first seven tables have deltas, each from its own scan; the others have none. */
  lemma EachAnswers(src: Source, since: Time, i: nat)
    requires i < |TABLES|
    ensures HasDeltas(TABLES[i]) <==> i < 7
    ensures Answer(src, TABLES[i].name, since) == Nth(src, i, since)
  {
    EachHasItsPlace(i);
  }

  lemma AnswersNeeded(src: Source, since: Time)
    ensures AllAnswer(src, since) <==>
              && src.attempts(since).Some? && src.runs(since).Some? && src.sessions(since).Some?
              && src.iterations(since).Some? && src.scratches(since).Some? && src.execs(since).Some?
              && src.repoMetrics(since).Some?
  {
    forall i | 0 <= i < |TABLES|
      ensures TABLES[i] in TABLES && (HasDeltas(TABLES[i]) <==> i < 7)
              && Answer(src, TABLES[i].name, since) == Nth(src, i, since)
    {
      EachAnswers(src, since, i);
    }
    Registered(TABLES);
    hide TABLES, Answer, HasDeltas;
    if AllAnswer(src, since) {
      forall i: nat | i < 7 ensures Nth(src, i, since).Some? {
        assert Answer(src, TABLES[i].name, since).Some?;
      }
      assert Nth(src, 0, since).Some? && Nth(src, 1, since).Some? && Nth(src, 2, since).Some?
             && Nth(src, 3, since).Some?;
      assert Nth(src, 4, since).Some? && Nth(src, 5, since).Some? && Nth(src, 6, since).Some?;
    }
  }

  lemma Registered(defs: seq<TableDef>)
    requires defs == TABLES
    ensures |defs| == 10
  {
  }

  ghost predicate Apart(defs: seq<TableDef>) {
    forall i, j :: 0 <= i < j < |defs| ==> defs[i].name != defs[j].name
  }

  /** The documents collected for each table with deltas, and for no other. */
  ghost predicate Collected(src: Source, since: Time, docs: map<string, seq<Doc>>, defs: seq<TableDef>) {
    && (forall name :: name in docs ==> exists i :: 0 <= i < |defs| && defs[i].name == name && HasDeltas(defs[i]))
    && forall i :: 0 <= i < |defs| && HasDeltas(defs[i]) ==>
         defs[i].name in docs && Answer(src, defs[i].name, since) == Some(docs[defs[i].name])
  }

  function NameAt(i: nat): string {
    match i
    case 0 => "attempts"
    case 1 => "runs"
    case 2 => "agent_sessions"
    case 3 => "agent_iterations"
    case 4 => "scratch_vms"
    case 5 => "scratch_execs"
    case _ => "repo_metrics"
  }

  lemma NamesAre(i: nat)
    requires i < 7
    ensures TABLES[i].name == NameAt(i)
  {
  }

  lemma CollectedIs(src: Source, since: Time, docs: map<string, seq<Doc>>)
    requires forall i: nat :: i < 7 ==> NameAt(i) in docs && Nth(src, i, since) == Some(docs[NameAt(i)])
    requires forall name :: name in docs ==> exists i: nat :: i < 7 && name == NameAt(i)
    ensures NothingIn(docs) <==> NothingNew(src, since)
    ensures forall writable :: Landable(TABLES, docs, writable) <==> writable || NothingNew(src, since)
    ensures SegmentRecords(TABLES, docs) == Changes(src, since, TABLES)
  {
    forall i: nat | i < |TABLES|
      ensures (HasDeltas(TABLES[i]) <==> i < 7) && Answer(src, TABLES[i].name, since) == Nth(src, i, since)
      ensures i < 7 ==> TABLES[i].name == NameAt(i)
    {
      EachAnswers(src, since, i);
      if i < 7 { NamesAre(i); }
    }
    RegistryIsValid();
    Registered(TABLES);
    hide TABLES, Answer, Nth, NameAt, HasDeltas;
    var defs := TABLES;
    AreCollected(src, since, docs, defs);
    NothingCollected(src, since, docs, defs);
    AllFound(src, since, docs, defs);
    assert defs[..|defs|] == defs;
    RecordsAreChanges(src, since, docs, defs, |defs|);
  }

  lemma AreCollected(src: Source, since: Time, docs: map<string, seq<Doc>>, defs: seq<TableDef>)
    requires |defs| >= 7 && forall i: nat :: i < 7 ==> NameAt(i) in docs && Nth(src, i, since) == Some(docs[NameAt(i)])
    requires forall name :: name in docs ==> exists i: nat :: i < 7 && name == NameAt(i)
    requires forall i: nat :: i < |defs| ==>
               && (HasDeltas(defs[i]) <==> i < 7) && Answer(src, defs[i].name, since) == Nth(src, i, since)
               && (i < 7 ==> defs[i].name == NameAt(i))
    ensures Collected(src, since, docs, defs)
  {
    hide Answer, Nth, NameAt, HasDeltas;
    forall name | name in docs ensures exists i :: 0 <= i < |defs| && defs[i].name == name && HasDeltas(defs[i]) {
      var i: nat :| i < 7 && name == NameAt(i);
      assert defs[i].name == name;
    }
  }

  lemma NothingCollected(src: Source, since: Time, docs: map<string, seq<Doc>>, defs: seq<TableDef>)
    requires Collected(src, since, docs, defs)
    ensures NothingIn(docs) <==> forall td :: td in defs && HasDeltas(td) ==> Answer(src, td.name, since) == Some([])
  {
    hide Answer, HasDeltas;
    if forall td :: td in defs && HasDeltas(td) ==> Answer(src, td.name, since) == Some([]) {
      forall name | name in docs ensures docs[name] == [] {
        var i :| 0 <= i < |defs| && defs[i].name == name && HasDeltas(defs[i]);
        assert defs[i] in defs;
      }
    }
  }

  lemma AllFound(src: Source, since: Time, docs: map<string, seq<Doc>>, defs: seq<TableDef>)
    requires Collected(src, since, docs, defs) && Apart(defs)
    ensures forall name :: name in docs ==> DocTableDef(defs, name).Found?
  {
    forall name | name in docs ensures DocTableDef(defs, name).Found? {
      hide Answer;
      var i :| 0 <= i < |defs| && defs[i].name == name && HasDeltas(defs[i]);
      var first := DocTableDefFinds(defs, name);
      assert first == i;
    }
  }

  lemma {:induction false} RecordsAreChanges(src: Source, since: Time, docs: map<string, seq<Doc>>, defs: seq<TableDef>,
                                             n: nat)
    requires Collected(src, since, docs, defs) && Apart(defs) && n <= |defs|
    ensures SegmentRecords(defs[..n], docs) == Changes(src, since, defs[..n])
  {
    if n > 0 {
      RecordsAreChanges(src, since, docs, defs, n - 1);
      hide Answer, HasDeltas;
      assert defs[..n][..n - 1] == defs[..n - 1];
      if defs[n - 1].name in docs {
        var i :| 0 <= i < |defs| && defs[i].name == defs[n - 1].name && HasDeltas(defs[i]);
        assert i == n - 1;
      }
    }
  }
}
