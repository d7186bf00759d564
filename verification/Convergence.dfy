/** What a sequence of guarded upserts leaves behind (internal/docdb/store.go:7-13, segments.go:130-132). */
module Convergence {
  import opened Upserts

  function Fold(rows: Rows, recs: seq<Rec>): Rows {
    if recs == [] then rows else Upsert(Fold(rows, recs[..|recs| - 1]), recs[|recs| - 1])
  }

  /** `rows` holds, for r's key, r itself or something at least as new. */
  ghost predicate Reflects(rows: Rows, r: Rec) {
    r.key in rows && Wins(rows[r.key].stamp, r.stamp)
  }

  ghost predicate WellKeyed(rows: Rows) {
    forall k :: k in rows ==> rows[k].key == k
  }

  lemma {:induction false} FoldConcat(rows: Rows, s: seq<Rec>, t: seq<Rec>)
    ensures Fold(rows, s + t) == Fold(Fold(rows, s), t)
  {
    if t == [] {
      assert s + t == s;
    } else {
      assert (s + t)[..|s + t| - 1] == s + t[..|t| - 1];
      FoldConcat(rows, s, t[..|t| - 1]);
    }
  }

  /** Folding never drops a key or moves a row to an older stamp, reflects every
      record it is given, and invents nothing. */
  lemma {:induction false} FoldAdvances(rows: Rows, recs: seq<Rec>)
    requires WellKeyed(rows)
    ensures WellKeyed(Fold(rows, recs))
    ensures forall k :: k in rows ==> Reflects(Fold(rows, recs), rows[k])
    ensures forall r :: r in recs ==> Reflects(Fold(rows, recs), r)
    ensures forall k :: k in Fold(rows, recs) ==>
              Fold(rows, recs)[k] in recs || (k in rows && Fold(rows, recs)[k] == rows[k])
  {
    if recs != [] {
      var init, last := recs[..|recs| - 1], recs[|recs| - 1];
      FoldAdvances(rows, init);
      assert recs == init + [last];
    }
  }

  ghost function Elems(s: seq<Rec>): set<Rec> { set r | r in s }

  lemma ElemsConcat(s: seq<Rec>, t: seq<Rec>)
    ensures Elems(s + t) == Elems(s) + Elems(t)
  {}

  /** No record of the same key in S is strictly newer. */
  ghost predicate Newest(r: Rec, S: set<Rec>) {
    r in S && forall q :: q in S && q.key == r.key ==> Wins(r.stamp, q.stamp)
  }

  /** Every key has one newest record; ties only matter at the top. */
  ghost predicate UniqueNewest(S: set<Rec>) {
    forall a, b :: Newest(a, S) && Newest(b, S) && a.key == b.key ==> a == b
  }

  ghost predicate OrderIndependent(S: set<Rec>) {
    forall s, t :: Elems(s) == S && Elems(t) == S ==> Fold(map[], s) == Fold(map[], t)
  }

  lemma FoldIsNewest(s: seq<Rec>)
    ensures WellKeyed(Fold(map[], s))
    ensures forall k :: k in Fold(map[], s) ==> Newest(Fold(map[], s)[k], Elems(s))
    ensures forall r :: r in s ==> r.key in Fold(map[], s)
  {
    FoldAdvances(map[], s);
  }

  lemma {:induction false} Enumerate(S: set<Rec>) returns (s: seq<Rec>)
    ensures Elems(s) == S
  {
    if S == {} {
      s := [];
    } else {
      var r :| r in S;
      var rest := Enumerate(S - {r});
      s := rest + [r];
      ElemsConcat(rest, [r]);
      assert Elems([r]) == {r};
    }
  }

  /** Any order and any repetition of the same documents leave the same rows,
      exactly when no key's newest stamp is shared by two documents. */
  lemma ConvergesIffUniqueNewest(S: set<Rec>)
    ensures OrderIndependent(S) <==> UniqueNewest(S)
  {
    if UniqueNewest(S) {
      forall s, t | Elems(s) == S && Elems(t) == S ensures Fold(map[], s) == Fold(map[], t) {
        FoldIsNewest(s);
        FoldIsNewest(t);
        var a, b := Fold(map[], s), Fold(map[], t);
        forall k ensures k in a <==> k in b {
          if k in a { assert a[k] in Elems(t); }
          if k in b { assert b[k] in Elems(s); }
        }
        assert forall k :: k in a ==> a[k] == b[k];
      }
    }
    if OrderIndependent(S) {
      forall a, b | Newest(a, S) && Newest(b, S) && a.key == b.key ensures a == b {
        var x := Enumerate(S);
        EndsWith(x, a, S);
        EndsWith(x, b, S);
        assert Fold(map[], x + [a]) == Fold(map[], x + [b]);
      }
    }
  }

  /** A newest record applied last is what its key holds. */
  lemma EndsWith(x: seq<Rec>, a: Rec, S: set<Rec>)
    requires Elems(x) == S && Newest(a, S)
    ensures Elems(x + [a]) == S
    ensures a.key in Fold(map[], x + [a]) && Fold(map[], x + [a])[a.key] == a
  {
    FoldIsNewest(x);
    FoldConcat(map[], x, [a]);
    assert Fold(Fold(map[], x), [a]) == Upsert(Fold(map[], x), a) by {
      assert [a][..0] == [];
    }
    var before := Fold(map[], x);
    if a.key in before {
      assert Newest(before[a.key], S);
    }
    ElemsConcat(x, [a]);
    assert Elems([a]) == {a};
  }

  lemma SameSetSameRows(s: seq<Rec>, t: seq<Rec>)
    requires Elems(s) == Elems(t) && UniqueNewest(Elems(s))
    ensures Fold(map[], s) == Fold(map[], t)
  {
    ConvergesIffUniqueNewest(Elems(s));
  }

  /** From the rows a first batch left, the second batch in any order and any
      repetition leads to the rows of the union. */
  lemma ReplayConverges(first: seq<Rec>, s: seq<Rec>, t: seq<Rec>)
    requires Elems(s) == Elems(t) && UniqueNewest(Elems(first) + Elems(s))
    ensures Fold(Fold(map[], first), s) == Fold(Fold(map[], t), first)
  {
    FoldConcat(map[], first, s);
    FoldConcat(map[], t, first);
    ElemsConcat(first, s);
    ElemsConcat(t, first);
    SameSetSameRows(first + s, t + first);
  }

  /** Two documents of one table with the same key and time of update: the later one applied
      is the one kept. */
  lemma OrderCanMatter() returns (td: TableDef, d: Doc, e: Doc)
    ensures ValidTable(td) && HasUpdated(td)
    ensures RecOf(td, d).key == RecOf(td, e).key && RecOf(td, d).stamp == RecOf(td, e).stamp == Val(5)
    ensures Plain(Null) !in RecOf(td, d).key.pk
    ensures Fold(map[], [RecOf(td, d), RecOf(td, e)]) != Fold(map[], [RecOf(td, e), RecOf(td, d)])
    ensures !OrderIndependent({RecOf(td, d), RecOf(td, e)})
  {
    td := TableDef("t", [Col("id", "$.ID"), Col("updated", "$.Updated")], ["id"]);
    d := Doc(map["$.ID" := Val(1), "$.Updated" := Val(5)]);
    e := Doc(map["$.ID" := Val(1), "$.Updated" := Val(5), "$.Note" := Val(2)]);
    assert Val(2) == e.fields["$.Note"] && d != e;
    TimedTable(td);
    TimedRow(td, d);
    TimedRow(td, e);
    hide RecOf, OrderIndependent, HasUpdated, ValidTable, Fold;
    TwoOrders(RecOf(td, d), RecOf(td, e));
  }

  lemma TimedTable(td: TableDef)
    requires td == TableDef("t", [Col("id", "$.ID"), Col("updated", "$.Updated")], ["id"])
    ensures ValidTable(td) && HasUpdated(td)
  {
    assert td.cols[0].name == "id" && td.cols[1].name == "updated";
  }

  lemma TimedRow(td: TableDef, d: Doc)
    requires td == TableDef("t", [Col("id", "$.ID"), Col("updated", "$.Updated")], ["id"])
    requires "$.ID" in d.fields && "$.Updated" in d.fields
    ensures RecOf(td, d) == Rec(Key("t", [Plain(d.fields["$.ID"])]), d.fields["$.Updated"], d)
  {
    assert td.cols[0].name == "id" && td.cols[1].name == "updated";
    assert "id" in ColNames(td) && "updated" in ColNames(td);
    assert Cell(RowOf(td, d), "id") == Plain(d.fields["$.ID"]);
    assert Cell(RowOf(td, d), "updated") == Plain(d.fields["$.Updated"]);
    assert KeyOf(RowOf(td, d), td.pk) == [Plain(d.fields["$.ID"])];
  }

  lemma TwoOrders(r: Rec, q: Rec)
    requires r.key == q.key && r.stamp == q.stamp && r != q
    ensures Fold(map[], [r, q]) != Fold(map[], [q, r]) && !OrderIndependent({r, q})
  {
    assert [r, q][..1] == [r] && [q, r][..1] == [q] && [r][..0] == [] && [q][..0] == [];
    assert Fold(map[], [r]) == map[r.key := r] && Fold(map[], [q]) == map[q.key := q];
    assert Fold(map[], [r, q])[r.key] == q && Fold(map[], [q, r])[r.key] == r;
    assert Elems([r, q]) == {r, q} == Elems([q, r]);
  }

  // ----- a transaction of records -----

  datatype DeltaRecord = DeltaRecord(table: string, doc: Doc)

  datatype Lookup = Found(td: TableDef) | Missing

  /** docTableDef: the first definition of that name, if it is a doc table. */
  function DocTableDef(defs: seq<TableDef>, name: string): Lookup {
    if defs == [] then Missing
    else if defs[0].name != name then DocTableDef(defs[1..], name)
    else if |defs[0].cols| == 0 then Missing
    else Found(defs[0])
  }

  /** The first definition of that name decides, even over a later one that takes documents:
      nothing is found if and only if there is none of that name or the first has no columns. */
  lemma {:induction false} DocTableDefFinds(defs: seq<TableDef>, name: string) returns (first: nat)
    ensures first <= |defs| && forall j :: 0 <= j < first ==> defs[j].name != name
    ensures first < |defs| ==> defs[first].name == name
    ensures DocTableDef(defs, name).Missing? <==> first == |defs| || |defs[first].cols| == 0
    ensures DocTableDef(defs, name).Found? ==> DocTableDef(defs, name).td == defs[first]
  {
    if defs == [] || defs[0].name == name {
      first := 0;
    } else {
      var later := DocTableDefFinds(defs[1..], name);
      first := later + 1;
      forall j | 0 <= j < first ensures defs[j].name != name {
        if j > 0 { assert defs[j] == defs[1..][j - 1]; }
      }
    }
  }

  ghost predicate ValidDefs(defs: seq<TableDef>) {
    forall td :: td in defs && |td.cols| > 0 ==> ValidTable(td)
  }

  /** A record the database takes: its table is a doc table that exists, its key has no NULL. */
  ghost predicate Applicable(defs: seq<TableDef>, created: set<string>, r: DeltaRecord) {
    && DocTableDef(defs, r.table).Found?
    && r.table in created
    && Plain(Null) !in RecOf(DocTableDef(defs, r.table).td, r.doc).key.pk
  }

  ghost predicate AllApplicable(defs: seq<TableDef>, created: set<string>, recs: seq<DeltaRecord>, n: nat)
    requires n <= |recs|
  {
    forall i :: 0 <= i < n ==> Applicable(defs, created, recs[i])
  }

  ghost function RecordOf(defs: seq<TableDef>, r: DeltaRecord): Rec {
    match DocTableDef(defs, r.table)
    case Found(td) => RecOf(td, r.doc)
    case Missing => Rec(Key(r.table, []), Null, r.doc)
  }

  ghost function RecsOf(defs: seq<TableDef>, recs: seq<DeltaRecord>): seq<Rec> {
    seq(|recs|, i requires 0 <= i < |recs| => RecordOf(defs, recs[i]))
  }

  ghost predicate AllShow(defs: seq<TableDef>, tables: map<string, Table>, rows: Rows) {
    forall name :: name in tables && DocTableDef(defs, name).Found? ==>
      Shows(DocTableDef(defs, name).td, tables[name], rows)
  }

  ghost predicate Prepared(defs: seq<TableDef>, created: set<string>, stmts: map<string, Statement>) {
    forall name :: name in stmts ==>
      DocTableDef(defs, name).Found? && name in created && WritesTable(stmts[name], DocTableDef(defs, name).td)
  }

  /** A database connection: the tables it stores, and (ghost) the documents they hold. */
  class Conn {
    const defs: seq<TableDef>
    var tables: map<string, Table>
    ghost var rows: Rows

    ghost predicate Valid()
      reads this
    {
      ValidDefs(defs) && AllShow(defs, tables, rows)
    }

    constructor (defs: seq<TableDef>, tables: map<string, Table>, ghost rows: Rows)
      requires ValidDefs(defs) && AllShow(defs, tables, rows)
      ensures Valid() && this.defs == defs && this.tables == tables && this.rows == rows
    {
      this.defs, this.tables, this.rows := defs, tables, rows;
    }

    /** One prepared statement, bound and executed. */
    method ExecPrepared(st: Statement, ghost td: TableDef, name: string, doc: Doc) returns (ok: bool)
      requires Valid() && name in tables
      requires DocTableDef(defs, name) == Found(td) && WritesTable(st, td)
      modifies this
      ensures Valid() && tables.Keys == old(tables.Keys)
      ensures ok <==> Plain(Null) !in RecOf(td, doc).key.pk
      ensures rows == if ok then Upsert(old(rows), RecOf(td, doc)) else old(rows)
      ensures !ok ==> tables == old(tables)
    {
      var first := DocTableDefFinds(defs, name);
      ExecRefinesUpsert(td, st, tables[name], doc, rows);
      var res := Exec(st, tables[name], doc);
      ok := res.Done?;
      if ok {
        OthersShow(defs, tables, rows, RecOf(td, doc));
        tables := tables[name := res.table];
        rows := Upsert(rows, RecOf(td, doc));
      }
    }

    /** docUpsertSQL for a record's table, built once a transaction: a statement that is
        there is used again, and preparing another keeps the earlier ones. */
    method Prepare(stmts: map<string, Statement>, name: string) returns (ok: bool, stmts': map<string, Statement>)
      requires ValidDefs(defs) && Prepared(defs, tables.Keys, stmts)
      ensures Prepared(defs, tables.Keys, stmts')
      ensures ok <==> name in stmts'
      ensures stmts' == if ok && name !in stmts then stmts[name := stmts'[name]] else stmts
      ensures ok <==> DocTableDef(defs, name).Found? && name in tables
    {
      ok, stmts' := true, stmts;
      if name !in stmts {
        var def := DocTableDef(defs, name);
        if def.Missing? || name !in tables {
          return false, stmts;
        }
        var first := DocTableDefFinds(defs, name);
        var st := DocUpsertSQL(def.td);
        stmts' := stmts[name := st];
      }
    }

    /** applyRecords: all the records in one transaction, or none of them. */
    method ApplyRecords(recs: seq<DeltaRecord>) returns (ok: bool)
      requires Valid()
      modifies this
      ensures Valid() && tables.Keys == old(tables.Keys)
      ensures ok <==> AllApplicable(defs, old(tables.Keys), recs, |recs|)
      ensures ok ==> rows == Fold(old(rows), RecsOf(defs, recs))
      ensures !ok ==> rows == old(rows) && tables == old(tables)
    {
      var stmts: map<string, Statement> := map[];
      var before := tables;
      ghost var rowsBefore := rows;
      for i := 0 to |recs|
        invariant Valid() && tables.Keys == before.Keys
        invariant AllApplicable(defs, before.Keys, recs, i)
        invariant Prepared(defs, before.Keys, stmts)
        invariant rows == Fold(rowsBefore, RecsOf(defs, recs[..i]))
      {
        var rec := recs[i];
        var done;
        done, stmts := Prepare(stmts, rec.table);
        if !done {
          tables, rows := before, rowsBefore;
          return false;
        }
        done := ExecPrepared(stmts[rec.table], DocTableDef(defs, rec.table).td, rec.table, rec.doc);
        if !done {
          tables, rows := before, rowsBefore;
          return false;
        }
        FoldOneMore(defs, recs, i, rowsBefore);
      }
      assert recs[..|recs|] == recs;
      ok := true;
    }
  }

  lemma FoldOneMore(defs: seq<TableDef>, recs: seq<DeltaRecord>, i: nat, rows: Rows)
    requires i < |recs|
    ensures Fold(rows, RecsOf(defs, recs[..i + 1])) == Upsert(Fold(rows, RecsOf(defs, recs[..i])),
                                                              RecordOf(defs, recs[i]))
  {
    var s := RecsOf(defs, recs[..i + 1]);
    assert s[..i] == RecsOf(defs, recs[..i]);
  }

  /** A write to one table leaves what the others hold as it was. */
  lemma OthersShow(defs: seq<TableDef>, tables: map<string, Table>, rows: Rows, r: Rec)
    ensures forall name :: name in tables && name != r.key.table && DocTableDef(defs, name).Found?
              && Shows(DocTableDef(defs, name).td, tables[name], rows)
              ==> Shows(DocTableDef(defs, name).td, tables[name], Upsert(rows, r))
  {
    forall name | name in tables && name != r.key.table && DocTableDef(defs, name).Found?
                  && Shows(DocTableDef(defs, name).td, tables[name], rows)
      ensures Shows(DocTableDef(defs, name).td, tables[name], Upsert(rows, r))
    {
      var first := DocTableDefFinds(defs, name);
      var td, t := DocTableDef(defs, name).td, tables[name];
      forall k | k in t ensures IsDocRow(td, k, t[k], Upsert(rows, r)) {
        assert IsDocRow(td, k, t[k], rows);
      }
    }
  }
}
