/** The cache and the segment writer as the code runs them: methods over mutable state,
    each proved to take the steps of the replication protocol
    (internal/docdb/cache.go, segments.go:71-128). */
module DocCache {
  import opened Upserts
  import opened Convergence
  import opened Segments
  import opened Replication
  import opened Options

  /** The segment objects a listing found, parsed. */
  type Objects = map<int, seq<DeltaRecord>>

  ghost function StoreOf(defs: seq<TableDef>, objects: Objects): Store {
    map n | n in objects :: Segment(RecsOf(defs, objects[n]), 0, map[])
  }

  function Names(objects: Objects, after: Option<int>, watermark: Time): seq<int> {
    match after
    case None => Sorted(set n | n in objects && n >= FirstName(watermark))
    case Some(a) => Sorted(set n | n in objects && n >= a && n != a)
  }

  lemma NamesAreNewSegments(defs: seq<TableDef>, objects: Objects, after: Option<int>, watermark: Time)
    ensures Names(objects, after, watermark) == NewSegments(StoreOf(defs, objects), after, watermark)
    ensures forall i :: 0 <= i < |Names(objects, after, watermark)| ==> Names(objects, after, watermark)[i] in objects
  {
    var store := StoreOf(defs, objects);
    match after
    case None =>
      assert (set n | n in objects && n >= FirstName(watermark)) == (set n | n in store && n >= FirstName(watermark));
      ListedAreMembers(set n | n in objects && n >= FirstName(watermark));
    case Some(a) =>
      assert (set n | n in objects && n >= a && n != a) == (set n | n in store && n >= a && n != a);
      ListedAreMembers(set n | n in objects && n >= a && n != a);
  }

  lemma ListedAreMembers(s: set<int>)
    ensures forall i :: 0 <= i < |s| ==> Sorted(s)[i] in s
  {
    SortedLists(s);
    forall i | 0 <= i < |s| ensures Sorted(s)[i] in s {
      assert Sorted(s)[i] in Sorted(s);
    }
  }

  /** The first k of the names are applied over the rows there were. */
  ghost predicate UpTo(store: Store, names: seq<int>, k: nat, rowsBefore: Rows, appliedBefore: Option<int>, rows: Rows,
                       applied: Option<int>) {
    && k <= |names|
    && rows == Replay(rowsBefore, store, names[..k])
    && applied == (if k == 0 then appliedBefore else Some(names[k - 1]))
  }

  lemma NoneApplied(store: Store, names: seq<int>, rows: Rows, applied: Option<int>)
    ensures UpTo(store, names, 0, rows, applied, rows, applied)
  {
  }

  lemma OneMoreApplied(defs: seq<TableDef>, objects: Objects, names: seq<int>, k: nat,
                       rowsBefore: Rows, appliedBefore: Option<int>, rows: Rows, applied: Option<int>)
    requires UpTo(StoreOf(defs, objects), names, k, rowsBefore, appliedBefore, rows, applied)
    requires k < |names| && names[k] in objects
    ensures UpTo(StoreOf(defs, objects), names, k + 1, rowsBefore, appliedBefore,
                 Fold(rows, RecsOf(defs, objects[names[k]])), Some(names[k]))
  {
    assert names[..k + 1] == names[..k] + [names[k]];
    ReplayOneMore(rowsBefore, StoreOf(defs, objects), names[..k], names[k]);
    hide Replay;
  }

  lemma OneMoreReplayed(defs: seq<TableDef>, objects: Objects, names: seq<int>, k: nat, rowsBefore: Rows, rows: Rows)
    requires k < |names| && names[k] in objects && rows == Replay(rowsBefore, StoreOf(defs, objects), names[..k])
    ensures Fold(rows, RecsOf(defs, objects[names[k]])) == Replay(rowsBefore, StoreOf(defs, objects), names[..k + 1])
  {
    assert names[..k + 1] == names[..k] + [names[k]];
    ReplayOneMore(rowsBefore, StoreOf(defs, objects), names[..k], names[k]);
    hide Replay;
  }

  /** Every record of the segment is one the database takes. */
  ghost predicate Fits(defs: seq<TableDef>, created: set<string>, objects: Objects, n: int) {
    n in objects && AllApplicable(defs, created, objects[n], |objects[n]|)
  }

  ghost predicate AllFit(defs: seq<TableDef>, created: set<string>, objects: Objects, names: seq<int>, k: nat)
    requires k <= |names|
  {
    forall i :: 0 <= i < k ==> Fits(defs, created, objects, names[i])
  }

  lemma OneMoreFits(defs: seq<TableDef>, created: set<string>, objects: Objects, names: seq<int>, k: nat)
    requires k < |names| && names[k] in objects && AllFit(defs, created, objects, names, k)
    ensures if AllApplicable(defs, created, objects[names[k]], |objects[names[k]]|)
            then AllFit(defs, created, objects, names, k + 1)
            else StopsAt(defs, created, objects, names, k) && !StopsAt(defs, created, objects, names, |names|)
  {
    hide AllApplicable;
  }

  /** The segments before the k-th fit, and it is the first that does not, if there is one. */
  ghost predicate StopsAt(defs: seq<TableDef>, created: set<string>, objects: Objects, names: seq<int>, k: nat) {
    && k <= |names|
    && AllFit(defs, created, objects, names, k)
    && (k < |names| ==> !Fits(defs, created, objects, names[k]))
  }

  function LastOf(names: seq<int>): Option<int> {
    if names == [] then None else Some(names[|names| - 1])
  }

  /** The protocol's hydrated state, field by field. */
  lemma HydratedIs(tag: int, watermark: Time, rows: Rows, store: Store)
    ensures var names := NewSegments(store, None, watermark);
            Hydrate(tag, watermark, rows, store) ==
            CacheState(Replay(rows, store, names), watermark, tag, None, LastOf(names))
  {
  }

  /** A downloaded base, opened: its schema era, its meta watermark (None if unreadable) and its tables. */
  datatype Download = Download(era: int, watermark: Option<Time>, tables: map<string, Table>)

  /** A base that can be served: of this era, its watermark readable, the listing there, and
      no segment past its slack window with a record the database refuses. */
  ghost predicate Hydratable(defs: seq<TableDef>, schema: int, download: Option<Download>, listing: Option<Objects>) {
    && download.Some? && download.value.era == schema && download.value.watermark.Some? && listing.Some?
    && var names := NewSegments(StoreOf(defs, listing.value), None, download.value.watermark.value);
       StopsAt(defs, download.value.tables.Keys, listing.value, names, |names|)
  }

  /** Cache's fields.  What its calls to the filesystem return are parameters of the methods. */
  class Cache {
    const defs: seq<TableDef>
    const schema: int
    var db: Conn?
    var watermark: Time
    var baseTag: Option<int>
    var refusedTag: Option<int>
    var applied: Option<int>

    ghost predicate Valid()
      reads this, db
    {
      && ValidDefs(defs)
      && (db != null ==> db.Valid() && db.defs == defs && baseTag.Some?)
    }

    ghost function State(): CacheState
      requires Valid() && db != null
      reads this, db
    {
      CacheState(db.rows, watermark, baseTag.value, refusedTag, applied)
    }

    constructor (defs: seq<TableDef>, schema: int)
      requires ValidDefs(defs)
      ensures Valid() && db == null && this.defs == defs && this.schema == schema
      ensures baseTag == None && refusedTag == None && applied == None
    {
      this.defs, this.schema := defs, schema;
      db, watermark, baseTag, refusedTag, applied := null, 0, None, None, None;
    }

    method Freshness() returns (t: Time)
      requires Valid() && db != null
      ensures t == Replication.Freshness(State())
    {
      t := watermark;
      if applied.Some? {
        t := SegmentTime(applied.value);
      }
    }

    /** Query's view: the current connection, or an error once closed. */
    method Query() returns (conn: Conn?)
      requires Valid()
      ensures conn == db
    {
      conn := db;
    }

    method Close()
      requires Valid()
      modifies this`db
      ensures Valid() && db == null
    {
      db := null;
    }

    /** sync: nothing for a refused base, a wholesale rehydration for a replaced one,
        and otherwise the new segments, each applied in its own transaction. */
    method Sync(stat: Option<int>, download: Option<Download>, ghost rows: Rows, listing: Option<Objects>)
      returns (ok: bool)
      requires Valid()
      requires download.Some? ==> AllShow(defs, download.value.tables, rows)
      modifies this, db
      ensures Valid()
      ensures stat.None? ==> !ok && unchanged(this) && (db != null ==> unchanged(db))
      ensures stat.Some? && old(refusedTag) == stat ==> ok && unchanged(this) && (db != null ==> unchanged(db))
      ensures stat.Some? && old(refusedTag) != stat && old(baseTag) != stat ==>
                Rehydrated(ok, stat.value, download, rows, listing, old(db))
      ensures stat.Some? && old(refusedTag) != stat && old(baseTag) == stat && old(db) != null ==>
                && db == old(db) && watermark == old(watermark) && baseTag == old(baseTag)
                    && refusedTag == old(refusedTag)
                && (listing.None? ==> !ok && db.rows == old(db.rows) && applied == old(applied))
                && (listing.Some? ==>
                      var names := NewSegments(StoreOf(defs, listing.value), old(applied), old(watermark));
                      exists k :: StopsAt(defs, old(db.tables.Keys), listing.value, names, k)
                                  && AppliedUpTo(names, k, old(db.rows), old(applied), listing.value)
                                  && (ok <==> k == |names|))
      ensures stat.Some? && old(refusedTag) != stat && old(baseTag) == stat && old(db) == null ==>
                !ok && unchanged(this)
      ensures db == old(db) || fresh(db)
    {
      if stat.None? {
        return false;
      }
      if refusedTag.Some? && stat == refusedTag {
        return true;
      }
      if stat != baseTag {
        ok := Rehydrate(stat.value, download, rows, listing);
        return;
      }
      if listing.None? || db == null {
        return false;
      }
      ok := ApplyNew(listing.value);
    }

    /** The first k of the names are applied, and no more. */
    ghost predicate AppliedUpTo(names: seq<int>, k: nat, rowsBefore: Rows, appliedBefore: Option<int>, objects: Objects)
      reads this, db
    {
      db != null && UpTo(StoreOf(defs, objects), names, k, rowsBefore, appliedBefore, db.rows, applied)
    }

    /** Segment by segment up to the first that has a record the database refuses. */
    method ApplyNew(objects: Objects) returns (ok: bool)
      requires Valid() && db != null
      modifies this`applied, db
      ensures Valid() && db == old(db)
      ensures var names := NewSegments(StoreOf(defs, objects), old(applied), watermark);
              exists k :: StopsAt(defs, old(db.tables.Keys), objects, names, k)
                          && AppliedUpTo(names, k, old(db.rows), old(applied), objects) && (ok <==> k == |names|)
    {
      var names := Names(objects, applied, watermark);
      ghost var store := StoreOf(defs, objects);
      NamesAreNewSegments(defs, objects, applied, watermark);
      ghost var rows0, applied0 := db.rows, applied;
      ghost var created := db.tables.Keys;
      NoneApplied(store, names, rows0, applied0);
      assert AllFit(defs, created, objects, names, 0);
      hide UpTo, NewSegments, StoreOf, AllApplicable, AllFit, Fits, AllShow, ValidDefs;
      for k := 0 to |names|
        invariant Valid() && db == old(db) && db.tables.Keys == created
        invariant AllFit(defs, created, objects, names, k)
        invariant UpTo(store, names, k, rows0, applied0, db.rows, applied)
      {
        ghost var rows := db.rows;
        OneMoreFits(defs, created, objects, names, k);
        var done := db.ApplyRecords(objects[names[k]]);
        if !done {
          assert AppliedUpTo(names, k, rows0, applied0, objects);
          return false;
        }
        OneMoreApplied(defs, objects, names, k, rows0, applied0, rows, applied);
        assert db.rows == Fold(rows, RecsOf(defs, objects[names[k]]));
        applied := Some(names[k]);
      }
      assert StopsAt(defs, created, objects, names, |names|);
      assert AppliedUpTo(names, |names|, rows0, applied0, objects);
      ok := true;
    }

    /** hydrate's loop over the segments, on a copy nobody else sees yet. */
    static method ReplayAll(conn: Conn, objects: Objects, names: seq<int>) returns (ok: bool)
      requires conn.Valid() && forall i :: 0 <= i < |names| ==> names[i] in objects
      modifies conn
      ensures conn.Valid() && conn.tables.Keys == old(conn.tables.Keys)
      ensures ok <==> StopsAt(conn.defs, old(conn.tables.Keys), objects, names, |names|)
      ensures ok ==> conn.rows == Replay(old(conn.rows), StoreOf(conn.defs, objects), names)
    {
      ghost var store, rows0, created := StoreOf(conn.defs, objects), conn.rows, conn.tables.Keys;
      for k := 0 to |names|
        invariant conn.Valid() && conn.rows == Replay(rows0, store, names[..k]) && conn.tables.Keys == created
        invariant AllFit(conn.defs, created, objects, names, k)
      {
        hide Replay, StoreOf, AllApplicable, AllFit, Fits, StopsAt, AllShow, ValidDefs;
        ghost var rows := conn.rows;
        OneMoreFits(conn.defs, created, objects, names, k);
        var done := conn.ApplyRecords(objects[names[k]]);
        if !done {
          return false;
        }
        OneMoreReplayed(conn.defs, objects, names, k, rows0, rows);
      }
      assert names[..|names|] == names;
      ok := true;
    }

    /** The downloaded base, opened, with every segment of its window replayed. */
    method OnACopy(tables: map<string, Table>, ghost rows: Rows, objects: Objects, since: Time)
      returns (ok: bool, conn: Conn, names: seq<int>)
      requires Valid() && AllShow(defs, tables, rows)
      ensures fresh(conn) && conn.Valid() && conn.defs == defs && conn.tables.Keys == tables.Keys
      ensures names == NewSegments(StoreOf(defs, objects), None, since)
      ensures ok <==> StopsAt(defs, tables.Keys, objects, names, |names|)
      ensures ok ==> conn.rows == Replay(rows, StoreOf(defs, objects), names)
    {
      conn := new Conn(defs, tables, rows);
      names := Names(objects, None, since);
      NamesAreNewSegments(defs, objects, None, since);
      hide Replay, Names, NewSegments, StopsAt, AllShow, ValidDefs, StoreOf;
      ok := ReplayAll(conn, objects, names);
    }

    /** What hydrate leaves: the protocol's hydrated state (see HydratedIs) if the base can be
        served, else the old copy untouched but for remembering a base refused for its era. */
    twostate predicate Rehydrated(
      ok: bool, tag: int, download: Option<Download>, rows: Rows, listing: Option<Objects>, served: Conn?)
      reads this, db, served
    {
      && (ok <==> Hydratable(defs, schema, download, listing))
      && if ok then
        && Valid() && db != null && db.tables.Keys == download.value.tables.Keys
        && baseTag == Some(tag) && refusedTag == None && watermark == download.value.watermark.value
        && (var store := StoreOf(defs, listing.value);
            var names := NewSegments(store, None, watermark);
            db.rows == Replay(rows, store, names) && applied == LastOf(names))
      else
        && db == served && (served != null ==> unchanged(served))
        && watermark == old(watermark) && baseTag == old(baseTag) && applied == old(applied)
        && refusedTag == (if download.Some? && download.value.era != schema then Some(tag) else old(refusedTag))
    }

    method Rehydrate(tag: int, download: Option<Download>, ghost rows: Rows, listing: Option<Objects>)
      returns (ok: bool)
      requires Valid()
      requires download.Some? ==> AllShow(defs, download.value.tables, rows)
      modifies this
      ensures Valid() && (ok ==> fresh(db))
      ensures Rehydrated(ok, tag, download, rows, listing, old(db))
    {
      hide Replay, NewSegments, StopsAt, AllShow, ValidDefs, StoreOf;
      if download.None? {
        return false;
      }
      if download.value.era != schema {
        refusedTag := Some(tag);
        return false;
      }
      if download.value.watermark.None? || listing.None? {
        return false;
      }
      var since, objects := download.value.watermark.value, listing.value;
      var done, conn, names := OnACopy(download.value.tables, rows, objects, since);
      if !done {
        return false;
      }
      db, watermark, baseTag, refusedTag := conn, since, Some(tag), None;
      applied := LastOf(names);
      ok := true;
    }
  }

  // ----- two syncs of one base -----

  /** The later listing has the segments of the window the earlier one had, as they were, and
      any others are named after all of those. */
  ghost predicate Continues(first: Objects, later: Objects, watermark: Time) {
    && (forall n :: n in first && n >= FirstName(watermark) ==> n in later && later[n] == first[n])
    && forall n, m :: n in first && n >= FirstName(watermark) && m in later && FirstName(watermark) <= m <= n ==>
                      m in first
  }

  /** Replaying the window in two parts, as a rehydration and the next sync do. */
  lemma WindowInTwo(defs: seq<TableDef>, first: Objects, later: Objects, watermark: Time, rows: Rows)
    requires Continues(first, later, watermark)
    ensures var before, after := StoreOf(defs, first), StoreOf(defs, later);
            var names := NewSegments(before, None, watermark);
            var more := NewSegments(after, LastOf(names), watermark);
            && names + more == NewSegments(after, None, watermark)
            && Replay(Replay(rows, before, names), after, more) == Replay(rows, after, names + more)
  {
    var before, after := StoreOf(defs, first), StoreOf(defs, later);
    SplitsAtTheLast(defs, first, later, watermark);
    KeptInBoth(defs, first, later, watermark);
    var names := NewSegments(before, None, watermark);
    var more := NewSegments(after, LastOf(names), watermark);
    hide NewSegments, StoreOf, Replay, Continues;
    ReplayInTwo(before, after, names, more, rows);
  }

  lemma KeptInBoth(defs: seq<TableDef>, first: Objects, later: Objects, watermark: Time)
    requires Continues(first, later, watermark)
    ensures var before, after := StoreOf(defs, first), StoreOf(defs, later);
            var names := NewSegments(before, None, watermark);
            forall i :: 0 <= i < |names| ==> names[i] in before && names[i] in after
                                             && before[names[i]].recs == after[names[i]].recs
  {
    var before := StoreOf(defs, first);
    ListedAreMembers(set n | n in before && n >= FirstName(watermark));
    hide RecsOf;
  }

  lemma SplitsAtTheLast(defs: seq<TableDef>, first: Objects, later: Objects, watermark: Time)
    requires Continues(first, later, watermark)
    ensures var before, after := StoreOf(defs, first), StoreOf(defs, later);
            var names := NewSegments(before, None, watermark);
            var more := NewSegments(after, LastOf(names), watermark);
            names + more == NewSegments(after, None, watermark)
  {
    hide Names, NewSegments, StoreOf, Continues;
    NamesAreNewSegments(defs, first, None, watermark);
    NamesAreNewSegments(defs, later, None, watermark);
    NamesAreNewSegments(defs, later, LastOf(Names(first, None, watermark)), watermark);
    NamesInTwo(first, later, watermark);
  }

  lemma NamesInTwo(first: Objects, later: Objects, watermark: Time)
    requires Continues(first, later, watermark)
    ensures var names := Names(first, None, watermark);
            names + Names(later, LastOf(names), watermark) == Names(later, None, watermark)
  {
    var window, all := set n | n in first && n >= FirstName(watermark), set n | n in later && n >= FirstName(watermark);
    assert window <= all && forall n, m :: n in window && m in all && m <= n ==> m in window;
    ListingInTwo(window, all);
    var names := Sorted(window);
    if names != [] {
      ListedAreMembers(window);
      hide Sorted;
      var last := names[|names| - 1];
      assert last in window;
      assert (set n | n in all && n > last) == set n | n in later && n >= last && n != last;
    }
  }

  lemma ListingInTwo(window: set<int>, all: set<int>)
    requires window <= all && forall n, m :: n in window && m in all && m <= n ==> m in window
    ensures var names := Sorted(window);
            if names == [] then names + Sorted(all) == Sorted(all)
            else names + Sorted(set n | n in all && n > names[|names| - 1]) == Sorted(all)
  {
    LastIsGreatest(window);
    var names := Sorted(window);
    hide Sorted;
    if names != [] {
      var rest := set n | n in all && n > names[|names| - 1];
      assert all == window + rest;
      SortedUnion(window, rest);
    }
  }

  lemma ReplayInTwo(before: Store, after: Store, names: seq<int>, more: seq<int>, rows: Rows)
    requires forall i :: 0 <= i < |names| ==> names[i] in before && names[i] in after
                                              && before[names[i]].recs == after[names[i]].recs
    ensures Replay(Replay(rows, before, names), after, more) == Replay(rows, after, names + more)
  {
    RecordsFrame(before, after, names);
    RecordsConcat(after, names, more);
    FoldConcat(rows, RecordsOf(after, names), RecordsOf(after, more));
  }

  lemma {:induction false} RecordsConcat(store: Store, names: seq<int>, more: seq<int>)
    ensures RecordsOf(store, names + more) == RecordsOf(store, names) + RecordsOf(store, more)
  {
    if more == [] {
      assert names + more == names;
    } else {
      var n := |more| - 1;
      RecordsConcat(store, names, more[..n]);
      assert (names + more)[..|names + more| - 1] == names + more[..n];
    }
  }

  /** A base is hydrated and then synced again: the second sync is neither refused nor a
      rehydration, and leaves the base with every segment of the window replayed. */
  method SyncTwice(cache: Cache, tag: int, download: Option<Download>, ghost rows: Rows, first: Option<Objects>,
                   again: Option<Download>, ghost againRows: Rows, later: Objects) returns (ok: bool, more: bool)
    requires cache.Valid() && cache.baseTag != Some(tag) && cache.refusedTag != Some(tag)
    requires download.Some? ==> AllShow(cache.defs, download.value.tables, rows)
    requires again.Some? ==> AllShow(cache.defs, again.value.tables, againRows)
    modifies cache, cache.db
    ensures cache.Valid()
    ensures ok <==> Hydratable(cache.defs, cache.schema, download, first)
    ensures ok && Continues(first.value, later, download.value.watermark.value) ==>
              var store := StoreOf(cache.defs, later);
              var window := NewSegments(store, None, download.value.watermark.value);
              && (AllFit(cache.defs, download.value.tables.Keys, later, window, |window|) ==>
                    && more && cache.db != null && cache.baseTag == Some(tag) && cache.refusedTag == None
                    && cache.db.rows == Replay(rows, store, window))
  {
    hide Replay, NewSegments, StoreOf, AllFit, Continues, Hydrate, AllShow, ValidDefs;
    ok := cache.Sync(Some(tag), download, rows, first);
    if !ok { return false, false; }
    ghost var applied := cache.applied;
    more := cache.Sync(Some(tag), again, againRows, Some(later));
    ghost var store, watermark := StoreOf(cache.defs, later), download.value.watermark.value;
    if Continues(first.value, later, watermark) {
      WindowInTwo(cache.defs, first.value, later, watermark, rows);
      ghost var names := NewSegments(StoreOf(cache.defs, first.value), None, watermark);
      ghost var rest := NewSegments(store, applied, watermark);
      if AllFit(cache.defs, download.value.tables.Keys, later, names + rest, |names + rest|) {
        TailFits(cache.defs, download.value.tables.Keys, later, names, rest);
        assert rest[..|rest|] == rest;
      }
    }
  }

  lemma TailFits(defs: seq<TableDef>, created: set<string>, objects: Objects, names: seq<int>, rest: seq<int>)
    requires AllFit(defs, created, objects, names + rest, |names + rest|)
    ensures forall k :: StopsAt(defs, created, objects, rest, k) ==> k == |rest|
  {
    forall i | 0 <= i < |rest| ensures Fits(defs, created, objects, rest[i]) {
      assert (names + rest)[|names| + i] == rest[i];
    }
  }

  // ----- writing a segment -----

  /** The destination's segment objects. */
  class Bucket {
    var objects: Objects

    constructor ()
      ensures objects == map[]
    {
      objects := map[];
    }
  }

  function DocsIn(table: string, docs: seq<Doc>): seq<DeltaRecord> {
    seq(|docs|, i requires 0 <= i < |docs| => DeltaRecord(table, docs[i]))
  }

  /** A segment's records in definition order. */
  function SegmentRecords(defs: seq<TableDef>, docs: map<string, seq<Doc>>): seq<DeltaRecord> {
    if defs == [] then []
    else SegmentRecords(defs[..|defs| - 1], docs)
         + (var name := defs[|defs| - 1].name; if name in docs then DocsIn(name, docs[name]) else [])
  }

  /** Definition order loses and invents nothing: a record is in the segment exactly
      when its table is declared and its document was scanned there. */
  lemma {:induction false} SegmentRecordsAre(defs: seq<TableDef>, docs: map<string, seq<Doc>>, r: DeltaRecord)
    ensures r in SegmentRecords(defs, docs) <==>
            (exists i :: 0 <= i < |defs| && defs[i].name == r.table) && r.table in docs && r.doc in docs[r.table]
  {
    if defs != [] {
      var init, last := defs[..|defs| - 1], defs[|defs| - 1];
      SegmentRecordsAre(init, docs, r);
      if last.name in docs {
        var batch := DocsIn(last.name, docs[last.name]);
        if r.table == last.name && r.doc in docs[r.table] {
          var j :| 0 <= j < |docs[r.table]| && docs[r.table][j] == r.doc;
          assert batch[j] == r;
        }
        assert SegmentRecords(defs, docs) == SegmentRecords(init, docs) + batch;
      }
      if exists i :: 0 <= i < |defs| && defs[i].name == r.table {
        var i :| 0 <= i < |defs| && defs[i].name == r.table;
        assert i == |defs| - 1 || init[i].name == r.table;
      }
      if exists i :: 0 <= i < |init| && init[i].name == r.table {
        var i :| 0 <= i < |init| && init[i].name == r.table;
        assert defs[i].name == r.table;
      }
    }
  }

  ghost predicate NothingIn(docs: map<string, seq<Doc>>) {
    forall table :: table in docs ==> docs[table] == []
  }

  /** Every table takes deltas, and the object can be written if there is one to write. */
  ghost predicate Landable(defs: seq<TableDef>, docs: map<string, seq<Doc>>, writable: bool) {
    && (forall table :: table in docs ==> DocTableDef(defs, table).Found?)
    && (writable || NothingIn(docs))
  }

  /** WriteSegment: nothing when every list is empty, an error for a table that takes no deltas. */
  method WriteSegment(dest: Bucket, t: Time, defs: seq<TableDef>, docs: map<string, seq<Doc>>, writable: bool)
    returns (ok: bool, wrote: bool)
    modifies dest
    ensures ok <==> Landable(defs, docs, writable)
    ensures wrote <==> ok && !NothingIn(docs)
    ensures dest.objects == if wrote then old(dest.objects)[SegmentName(t) := SegmentRecords(defs, docs)]
                            else old(dest.objects)
  {
    var total, rest := 0, docs.Keys;
    while rest != {}
      invariant rest <= docs.Keys && total >= 0
      invariant forall name :: name in docs && name !in rest ==> DocTableDef(defs, name).Found?
      invariant total == 0 <==> forall name :: name in docs && name !in rest ==> docs[name] == []
    {
      var name :| name in rest;
      if DocTableDef(defs, name).Missing? {
        return false, false;
      }
      total, rest := total + |docs[name]|, rest - {name};
    }
    if total == 0 {
      return true, false;
    }
    if !writable {
      return false, false;
    }
    dest.objects := dest.objects[SegmentName(t) := SegmentRecords(defs, docs)];
    ok, wrote := true, true;
  }
}
