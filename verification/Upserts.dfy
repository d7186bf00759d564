/** Guarded upserts of documents into tables (internal/docdb/store.go, segments.go).

    An extracted value is NULL or a scalar standing by its place in SQLite's total
    order of scalars.  A document is the map from extraction expressions to the
    values they yield; an absent path yields NULL.  A column holds an extracted
    value or, for the raw column, the whole document. */
module Upserts {

  datatype Scalar = Null | Val(rank: int)
  datatype Doc = Doc(fields: map<string, Scalar>)
  datatype Value = Plain(scalar: Scalar) | Raw(doc: Doc)

  datatype Col = Col(name: string, expr: string)
  datatype TableDef = TableDef(name: string, cols: seq<Col>, pk: seq<string>)

  /** An expression of the write statement: a path into the bound document, or the document itself. */
  datatype Expr = Path(path: string) | Bound

  /** What the SQL text of a write statement says. */
  datatype Statement = Statement(
    names: seq<string>, exprs: seq<Expr>, conflict: seq<string>, sets: seq<string>, guarded: bool)

  type Row = map<string, Value>
  type Table = map<seq<Value>, Row>

  function Extract(d: Doc, e: Expr): Value {
    match e
    case Bound => Raw(d)
    case Path(p) => Plain(if p in d.fields then d.fields[p] else Null)
  }

  /** validateTable for a doc table: keys over real columns, no column twice, none called raw. */
  ghost predicate ValidTable(td: TableDef) {
    && |td.pk| > 0
    && (forall i :: 0 <= i < |td.cols| ==> td.cols[i].name != "raw")
    && (forall i, j :: 0 <= i < j < |td.cols| ==> td.cols[i].name != td.cols[j].name)
    && (forall p :: p in td.pk ==> p == "raw" || exists i :: 0 <= i < |td.cols| && td.cols[i].name == p)
  }

  predicate HasUpdated(td: TableDef) {
    exists i :: 0 <= i < |td.cols| && td.cols[i].name == "updated"
  }

  /** The statement the table definition calls for, stated by what it contains. */
  ghost predicate WritesTable(st: Statement, td: TableDef) {
    && |st.names| == |st.exprs| == |td.cols| + 1
    && (forall i :: 0 <= i < |td.cols| ==> st.names[i] == td.cols[i].name && st.exprs[i] == Path(td.cols[i].expr))
    && st.names[|td.cols|] == "raw" && st.exprs[|td.cols|] == Bound
    && st.conflict == td.pk
    && (forall n :: n in st.sets <==> n == "raw" || (n !in td.pk && exists i ::
                                                       0 <= i < |td.cols| && td.cols[i].name == n))
    && (st.guarded <==> HasUpdated(td))
  }

  method DocUpsertSQL(td: TableDef) returns (st: Statement)
    ensures WritesTable(st, td)
  {
    var names, exprs, sets, hasUpdated := [], [], [], false;
    for k := 0 to |td.cols|
      invariant |names| == |exprs| == k
      invariant forall i :: 0 <= i < k ==> names[i] == td.cols[i].name && exprs[i] == Path(td.cols[i].expr)
      invariant forall n :: n in sets <==> n !in td.pk && exists i :: 0 <= i < k && td.cols[i].name == n
      invariant hasUpdated <==> exists i :: 0 <= i < k && td.cols[i].name == "updated"
    {
      var c := td.cols[k];
      names := names + [c.name];
      exprs := exprs + [Path(c.expr)];
      hasUpdated := hasUpdated || c.name == "updated";
      if c.name !in td.pk {
        sets := sets + [c.name];
      }
    }
    names := names + ["raw"];
    exprs := exprs + [Bound];
    sets := sets + ["raw"];
    st := Statement(names, exprs, td.pk, sets, hasUpdated);
  }

  // ----- executing the statement -----

  /** The conflict clause's WHERE: a comparison with NULL is not true. */
  predicate Wins(excluded: Scalar, stored: Scalar) {
    || stored.Null?
    || (excluded.Val? && stored.Val? && excluded.rank >= stored.rank)
  }

  function Cell(r: Row, c: string): Value {
    if c in r then r[c] else Plain(Null)
  }

  function Clock(r: Row): Scalar {
    var v := Cell(r, "updated");
    if v.Plain? then v.scalar else Null
  }

  function KeyOf(r: Row, pk: seq<string>): seq<Value> {
    seq(|pk|, i requires 0 <= i < |pk| => Cell(r, pk[i]))
  }

  /** The row SELECT builds from the bound document. */
  function Excluded(st: Statement, d: Doc): Row
    requires |st.names| == |st.exprs|
  {
    ExcludedTo(st, d, |st.names|)
  }

  function ExcludedTo(st: Statement, d: Doc, n: nat): Row
    requires n <= |st.names| == |st.exprs|
  {
    if n == 0 then map[] else ExcludedTo(st, d, n - 1)[st.names[n - 1] := Extract(d, st.exprs[n - 1])]
  }

  datatype ExecResult = Done(table: Table) | ConstraintFailed

  /** INSERT .. SELECT .. ON CONFLICT (pk) DO UPDATE SET .. WHERE ..; keys of a
      WITHOUT ROWID table are NOT NULL. */
  function Exec(st: Statement, t: Table, d: Doc): ExecResult
    requires |st.names| == |st.exprs|
  {
    var row := Excluded(st, d);
    var k := KeyOf(row, st.conflict);
    if Plain(Null) in k then ConstraintFailed
    else if k !in t then Done(t[k := row])
    else
      var stored := t[k];
      if st.guarded && !Wins(Clock(row), Clock(stored)) then Done(t)
      else Done(t[k := map c | c in stored.Keys + row.Keys :: if c in st.sets then Cell(row, c) else Cell(stored, c)])
  }

  // ----- the documents a table holds -----

  datatype Key = Key(table: string, pk: seq<Value>)

  /** A document as the replication protocol sees it: where it goes and how new it is. */
  datatype Rec = Rec(key: Key, stamp: Scalar, doc: Doc)

  type Rows = map<Key, Rec>

  /** Without an updated column every write wins, as if no document were stamped. */
  ghost function StampOf(td: TableDef, d: Doc): Scalar {
    if HasUpdated(td) then Clock(RowOf(td, d)) else Null
  }

  ghost function ColNames(td: TableDef): set<string> {
    set i | 0 <= i < |td.cols| :: td.cols[i].name
  }

  ghost function ColumnExpr(td: TableDef, c: string): Expr {
    if c in ColNames(td) then var i :| 0 <= i < |td.cols| && td.cols[i].name == c; Path(td.cols[i].expr) else Bound
  }

  /** The row every column of which derives from the document. */
  ghost function RowOf(td: TableDef, d: Doc): Row {
    map c | c in ColNames(td) + {"raw"} :: Extract(d, ColumnExpr(td, c))
  }

  ghost function RecOf(td: TableDef, d: Doc): Rec {
    Rec(Key(td.name, KeyOf(RowOf(td, d), td.pk)), StampOf(td, d), d)
  }

  /** Every row agrees in every column with the document it stores and sits under
      that document's key; the documents of the table are those `rows` gives it. */
  ghost predicate Shows(td: TableDef, t: Table, rows: Rows) {
    && (forall k :: k in t ==> IsDocRow(td, k, t[k], rows))
    && (forall key :: key in rows && key.table == td.name ==> key.pk in t)
  }

  ghost predicate IsDocRow(td: TableDef, k: seq<Value>, r: Row, rows: Rows) {
    && Cell(r, "raw").Raw?
    && r == RowOf(td, Cell(r, "raw").doc)
    && Plain(Null) !in k
    && Key(td.name, k) in rows
    && rows[Key(td.name, k)] == RecOf(td, Cell(r, "raw").doc)
    && rows[Key(td.name, k)].key.pk == k
  }

  /** The write the protocol relies on: keep the newer document, NULL being oldest. */
  function Upsert(rows: Rows, r: Rec): Rows {
    if r.key in rows && !Wins(r.stamp, rows[r.key].stamp) then rows else rows[r.key := r]
  }

  lemma {:induction false} ExcludedRange(st: Statement, td: TableDef, d: Doc, n: nat)
    requires ValidTable(td) && WritesTable(st, td) && n <= |td.cols|
    ensures forall c :: c in ExcludedTo(st, d, n) <==> exists i :: 0 <= i < n && td.cols[i].name == c
    ensures forall i :: 0 <= i < n ==> ExcludedTo(st, d, n)[td.cols[i].name] == Extract(d, Path(td.cols[i].expr))
  {
    if n > 0 {
      ExcludedRange(st, td, d, n - 1);
    }
  }

  lemma ExcludedIsRowOf(st: Statement, td: TableDef, d: Doc)
    requires ValidTable(td) && WritesTable(st, td)
    ensures Excluded(st, d) == RowOf(td, d)
  {
    ExcludedRange(st, td, d, |td.cols|);
    var row := Excluded(st, d);
    assert row == ExcludedTo(st, d, |td.cols|)["raw" := Raw(d)];
    assert row.Keys == RowOf(td, d).Keys;
  }

  /** Updating every column but the key's, on a key conflict, leaves exactly the new row. */
  lemma MergedIsExcluded(td: TableDef, st: Statement, stored: Row, d: Doc, d0: Doc)
    requires ValidTable(td) && WritesTable(st, td)
    requires stored == RowOf(td, d0) && KeyOf(stored, td.pk) == KeyOf(RowOf(td, d), td.pk)
    ensures (map c | c in stored.Keys + RowOf(td, d).Keys ::
               if c in st.sets then Cell(RowOf(td, d), c) else Cell(stored, c)) == RowOf(td, d)
  {
    var row := RowOf(td, d);
    forall c | c in row.Keys && c !in st.sets ensures Cell(stored, c) == row[c] {
      assert c in td.pk;
      var i :| 0 <= i < |td.pk| && td.pk[i] == c;
      assert KeyOf(row, td.pk)[i] == KeyOf(stored, td.pk)[i];
    }
  }

  /** The row a key conflict replaces is replaced by the new document's row, or kept
      because it is newer. */
  lemma ExecOnConflict(td: TableDef, st: Statement, t: Table, d: Doc, rows: Rows)
    requires ValidTable(td) && WritesTable(st, td) && Shows(td, t, rows)
    requires var r := RecOf(td, d); Plain(Null) !in r.key.pk && r.key.pk in t
    ensures var r := RecOf(td, d);
            && r.key in rows
            && Exec(st, t, d) == Done(if Wins(r.stamp, rows[r.key].stamp) then t[r.key.pk := RowOf(td, d)] else t)
  {
    ExcludedIsRowOf(st, td, d);
    var k := RecOf(td, d).key.pk;
    assert IsDocRow(td, k, t[k], rows);
    var d0 := Cell(t[k], "raw").doc;
    StampIsClock(td, d);
    StampIsClock(td, d0);
    hide Excluded, RowOf, HasUpdated, ValidTable, Clock, Shows;
    MergedIsExcluded(td, st, t[k], d, d0);
  }

  lemma StampIsClock(td: TableDef, d: Doc)
    ensures StampOf(td, d) == if HasUpdated(td) then Clock(RowOf(td, d)) else Null
  {
  }

  /** Executing the generated statement keeps every column derived from its row's
      document, and is the guarded upsert on documents. */
  lemma ExecRefinesUpsert(td: TableDef, st: Statement, t: Table, d: Doc, rows: Rows)
    requires ValidTable(td) && WritesTable(st, td) && Shows(td, t, rows)
    ensures Exec(st, t, d).ConstraintFailed? <==> Plain(Null) in RecOf(td, d).key.pk
    ensures Exec(st, t, d).Done? ==> Shows(td, Exec(st, t, d).table, Upsert(rows, RecOf(td, d)))
  {
    ExcludedIsRowOf(st, td, d);
    var r := RecOf(td, d);
    if Plain(Null) !in r.key.pk {
      if r.key.pk in t {
        ExecOnConflict(td, st, t, d, rows);
      } else {
        NotShown(td, t, rows, r.key.pk);
      }
      PutRow(td, t, d, rows);
    }
    hide Excluded, RowOf, Shows, ValidTable;
  }

  lemma NotShown(td: TableDef, t: Table, rows: Rows, k: seq<Value>)
    requires Shows(td, t, rows) && k !in t
    ensures Key(td.name, k) !in rows
  {
    assert Key(td.name, k).pk == k;
  }

  lemma PutRow(td: TableDef, t: Table, d: Doc, rows: Rows)
    requires ValidTable(td) && Shows(td, t, rows)
    requires Plain(Null) !in RecOf(td, d).key.pk
    ensures Shows(td, t[RecOf(td, d).key.pk := RowOf(td, d)], rows[RecOf(td, d).key := RecOf(td, d)])
  {
    var k := RecOf(td, d).key.pk;
    var t', rows' := t[k := RowOf(td, d)], rows[RecOf(td, d).key := RecOf(td, d)];
    assert Cell(RowOf(td, d), "raw") == Raw(d);
    forall j | j in t' ensures IsDocRow(td, j, t'[j], rows') {
      if j != k {
        assert IsDocRow(td, j, t[j], rows);
      }
    }
  }
}
