/** The zip pipeline with its stages, and the wheel's RECORD written at the end of it
    (pkg/stabilize/wheel.go, context.go, zip.go). */
module WheelRecords {
  import opened Orders
  import opened StableSorting
  import opened Canonical
  import opened ZipStabilize
  import opened RecordCsv
  import opened Options

  // ----- stabilizers of every kind, and their stages -----

  const STAGE_FINALIZE := 100

  /** What a stabilizer does to a zip: a built-in function, the RECORD writer, or any
      function of one entry or of the whole list (custom replacements and exclusions). */
  datatype ZipFn =
    | BuiltinFn(b: Builtin)
    | WheelRecord
    | OnEntry(g: ZipEntry -> ZipEntry)
    | OnArchive(f: seq<ZipEntry> -> seq<ZipEntry>)

  datatype Stabilizer = Stabilizer(fn: ZipFn, ordering: int)

  function ByOrdering(a: Stabilizer, b: Stabilizer): int {
    CompareInt(a.ordering, b.ordering)
  }

  /** WithStabilizers. */
  function Sequenced(given: seq<Stabilizer>): seq<Stabilizer> {
    StableSort(ByOrdering, given)
  }

  // ----- the RECORD file -----

  const SUFFIX := ".dist-info/RECORD"

  /** The glob *.dist-info/RECORD: the star does not match a slash. */
  predicate IsRecord(name: string) {
    var n := |name| - |SUFFIX|;
    n >= 0 && name[n..] == SUFFIX && forall i :: 0 <= i < n ==> name[i] != '/'
  }

  /** The entry of that name in a top-level directory of any name ending in .dist-info. */
  lemma RecordNames(name: string)
    ensures IsRecord(name) <==> exists dir: string :: '/' !in dir && name == dir + ".dist-info/RECORD"
  {
    var n := |name| - |".dist-info/RECORD"|;
    if IsRecord(name) {
      assert '/' !in name[..n] && name == name[..n] + ".dist-info/RECORD";
    }
    if dir: string :| '/' !in dir && name == dir + ".dist-info/RECORD" {
      assert |dir| == n && name[n..] == ".dist-info/RECORD";
      forall i | 0 <= i < n ensures name[i] != '/' { assert name[i] == dir[i]; }
    }
  }

  /** The first matching entry, or the number of entries. */
  function FirstRecord(files: seq<ZipEntry>): (i: nat)
    ensures i <= |files|
    ensures i < |files| ==> IsRecord(NameOf(files[i]))
    ensures forall k :: 0 <= k < i ==> !IsRecord(NameOf(files[k]))
  {
    if files == [] || IsRecord(NameOf(files[0])) then 0
    else
      var i := FirstRecord(files[1..]);
      assert forall k :: 1 <= k <= i ==> files[k] == files[1..][k - 1] || k == i;
      i + 1
  }

  /** digest stands for the SHA-256 field. */
  function RowOf(e: ZipEntry, digest: string -> string): Row
    requires e.content.Some?
  {
    Row(NameOf(e), digest(e.content.value), Decimal(|e.content.value|))
  }

  predicate ReadableTo(files: seq<ZipEntry>, skip: nat, n: nat)
    requires n <= |files|
  {
    forall k :: 0 <= k < n && k != skip ==> files[k].content.Some?
  }

  predicate Readable(files: seq<ZipEntry>, skip: nat) {
    ReadableTo(files, skip, |files|)
  }

  /** One row for each of the first n entries but the one skipped. */
  function RowsOf(files: seq<ZipEntry>, skip: nat, digest: string -> string, n: nat): (rows: seq<Row>)
    requires n <= |files| && ReadableTo(files, skip, n)
    ensures |rows| == if skip < n then n - 1 else n
  {
    if n == 0 then []
    else RowsOf(files, skip, digest, n - 1) + if n - 1 == skip then [] else [RowOf(files[n - 1], digest)]
  }

  function ByPath(a: Row, b: Row): int {
    CompareString(a.path, b.path)
  }

  function RecordRows(files: seq<ZipEntry>, i: nat, digest: string -> string): seq<Row>
    requires i < |files| && Readable(files, i)
  {
    StableSort(ByPath, RowsOf(files, i, digest, |files|)) + [Row(NameOf(files[i]), "", "")]
  }

  /** StableWheelRecord: nothing without a RECORD, nothing when an entry cannot be read. */
  function Recorded(files: seq<ZipEntry>, digest: string -> string): seq<ZipEntry> {
    var i := FirstRecord(files);
    if i == |files| || !Readable(files, i) then files
    else files[i := files[i].(content := Some(RenderAll(RecordRows(files, i, digest))))]
  }

  // ----- the procedure -----

  ghost predicate Applies(s: ZipFn, digest: string -> string, a: seq<ZipEntry>, b: seq<ZipEntry>) {
    match s
    case BuiltinFn(x) => Step(ZIP, x, a, b)
    case WheelRecord => b == Recorded(a, digest)
    case OnEntry(g) => b == Map(g, a)
    case OnArchive(f) => b == f(a)
  }

  ghost predicate FullRuns(l: seq<Stabilizer>, digest: string -> string, states: seq<seq<ZipEntry>>) {
    && |states| == |l| + 1
    && forall k :: 0 <= k < |l| ==> Applies(l[k].fn, digest, states[k], states[k + 1])
  }

  class ZipArchive {
    var files: seq<ZipEntry>

    constructor (files: seq<ZipEntry>)
      ensures this.files == files
    {
      this.files := files;
    }

    method EachEntry(g: ZipEntry -> ZipEntry)
      modifies this
      ensures files == Map(g, old(files))
    {
      for i := 0 to |files|
        invariant |files| == |old(files)|
        invariant forall k :: 0 <= k < i ==> files[k] == g(old(files)[k])
        invariant forall k :: i <= k < |files| ==> files[k] == old(files)[k]
      {
        files := files[i := g(files[i])];
      }
      assert files == Map(g, old(files));
    }

    method WriteRecord(digest: string -> string)
      modifies this
      ensures files == Recorded(old(files), digest)
    {
      var i := FirstRecord(files);
      if i == |files| { return; }
      var ok, rows := CollectRows(files, i, digest);
      if !ok { return; }
      var text := WriteRows(StableSort(ByPath, rows) + [Row(NameOf(files[i]), "", "")]);
      files := files[i := files[i].(content := Some(text))];
    }
  }

  /** The loop over the other entries, giving up at the first that cannot be read. */
  method CollectRows(files: seq<ZipEntry>, i: nat, digest: string -> string) returns (ok: bool, rows: seq<Row>)
    ensures ok <==> Readable(files, i)
    ensures ok ==> rows == RowsOf(files, i, digest, |files|)
  {
    rows := [];
    for k := 0 to |files|
      invariant ReadableTo(files, i, k) && rows == RowsOf(files, i, digest, k)
    {
      if k != i {
        if files[k].content.None? { return false, []; }
        rows := rows + [RowOf(files[k], digest)];
      }
    }
    ok := true;
  }

  method WriteRows(rows: seq<Row>) returns (text: string)
    ensures text == RenderAll(rows)
  {
    text := "";
    for k := 0 to |rows|
      invariant text == RenderAll(rows[..k])
    {
      assert rows[..k] + [rows[k]] == rows[..k + 1];
      RenderAppend(rows[..k], rows[k]);
      text := text + Render(rows[k]);
    }
    assert rows[..|rows|] == rows;
  }

  /** One stabilizer, on the archive. */
  method ApplyOne(archive: ZipArchive, fn: ZipFn, digest: string -> string)
    modifies archive
    ensures Applies(fn, digest, old(archive.files), archive.files)
  {
    match fn {
      case BuiltinFn(b) =>
        if b == FileOrder {
          archive.files := SortByName(archive.files, NameOf);
        } else {
          archive.EachEntry(e => ZIP.step(b, e));
        }
      case WheelRecord => archive.WriteRecord(digest);
      case OnEntry(g) => archive.EachEntry(g);
      case OnArchive(f) => archive.files := f(archive.files);
    }
  }

  /** StabilizeZip: runs the stabilizers in the context's order; writing fails if an entry
      cannot be read. */
  method StabilizeZip(input: seq<ZipEntry>, given: seq<Stabilizer>, digest: string -> string)
    returns (r: Option<seq<ZipEntry>>, ghost states: seq<seq<ZipEntry>>)
    ensures |states| == |given| + 1 && states[0] == input && FullRuns(Sequenced(given), digest, states)
    ensures r.Some? <==> Readable(states[|given|], |states[|given|]|)
    ensures r.Some? ==> r.value == states[|given|]
  {
    var l := Sequenced(given);
    SequencedLength(given);
    var archive := new ZipArchive(input);
    states := [input];
    for i := 0 to |l|
      invariant |states| == i + 1 && states[0] == input && states[i] == archive.files
      invariant forall k :: 0 <= k < i ==> Applies(l[k].fn, digest, states[k], states[k + 1])
    {
      hide Applies;
      ApplyOne(archive, l[i].fn, digest);
      states := states + [archive.files];
    }
    var files := archive.files;
    for k := 0 to |files|
      invariant forall j :: 0 <= j < k ==> files[j].content.Some?
    {
      if files[k].content.None? { return None, states; }
    }
    r := Some(files);
  }

  lemma SequencedLength(given: seq<Stabilizer>)
    ensures |Sequenced(given)| == |given|
    ensures StablySorted(ByOrdering, given, Sequenced(given))
  {
    OrderingsAreOrdered();
    StableSortSorts(ByOrdering, given);
    assert |multiset(Sequenced(given))| == |multiset(given)|;
  }

  lemma OrderingsAreOrdered()
    ensures TotalPreorder(ByOrdering)
  {
    IntsAreOrdered();
    KeyOrders((s: Stabilizer) => s.ordering, CompareInt, ByOrdering);
  }

  lemma PathsAreOrdered()
    ensures TotalPreorder(ByPath)
  {
    StringsAreOrdered();
    KeyOrders((r: Row) => r.path, CompareString, ByPath);
  }

  // ----- RECORD agrees with the archive -----

  /** The RECORD at i reads back as one row for every other entry, with the digest and
      size of its content, sorted by path, and then its own row. */
  ghost predicate RecordAgrees(files: seq<ZipEntry>, i: nat, digest: string -> string)
    requires i < |files| && Readable(files, i)
  {
    && files[i].content.Some?
    && exists rows ::
      && ReadRows(files[i].content.value) == Some(rows + [Row(NameOf(files[i]), "", "")])
      && StablySorted(ByPath, RowsOf(files, i, digest, |files|), rows)
  }

  lemma {:induction false} RowsArePlain(files: seq<ZipEntry>, skip: nat, digest: string -> string, n: nat)
    requires n <= |files| && ReadableTo(files, skip, n) && forall c :: Plain(digest(c))
    ensures forall r :: r in RowsOf(files, skip, digest, n) ==> Plain(r.digest) && Plain(r.size)
  {
    if n > 0 {
      RowsArePlain(files, skip, digest, n - 1);
      if n - 1 != skip { DecimalIsPlain(|files[n - 1].content.value|); }
    }
  }

  /** Only the skipped entry's content may differ. */
  lemma {:induction false} SameRows(a: seq<ZipEntry>, b: seq<ZipEntry>, skip: nat, digest: string -> string, n: nat)
    requires n <= |a| == |b| && ReadableTo(a, skip, n) && ReadableTo(b, skip, n)
    requires forall k :: 0 <= k < |a| && k != skip ==> a[k] == b[k]
    ensures RowsOf(a, skip, digest, n) == RowsOf(b, skip, digest, n)
  {
    if n > 0 { SameRows(a, b, skip, digest, n - 1); }
  }

  lemma FirstRecordKept(a: seq<ZipEntry>, b: seq<ZipEntry>)
    requires |a| == |b| && forall k :: 0 <= k < |a| ==> NameOf(a[k]) == NameOf(b[k])
    ensures FirstRecord(a) == FirstRecord(b)
  {
  }

  lemma RecordedAgrees(files: seq<ZipEntry>, digest: string -> string)
    requires forall c :: Plain(digest(c))
    ensures var after := Recorded(files, digest);
            var i := FirstRecord(files);
            && FirstRecord(after) == i && |after| == |files|
            && (i < |files| ==> (Readable(after, i) <==> Readable(files, i)))
            && (i < |files| && Readable(files, i) ==> RecordAgrees(after, i, digest))
  {
    var after := Recorded(files, digest);
    var i := FirstRecord(files);
    FirstRecordKept(files, after);
    if i < |files| && Readable(files, i) {
      SameRows(files, after, i, digest, |files|);
      var unsorted := RowsOf(files, i, digest, |files|);
      var rows := StableSort(ByPath, unsorted);
      var all := rows + [Row(NameOf(files[i]), "", "")];
      PathsAreOrdered();
      StableSortSorts(ByPath, unsorted);
      RowsArePlain(files, i, digest, |files|);
      forall k | 0 <= k < |all| ensures Plain(all[k].digest) && Plain(all[k].size) {
        if k < |rows| {
          SameMembers(rows, unsorted, rows[k]);
          assert rows[k] in rows;
        }
      }
      RowsBack(all);
    }
  }

  /** Only the RECORD writer is staged at STAGE_FINALIZE or later, and it is there. */
  ghost predicate RecordIsFinal(given: seq<Stabilizer>) {
    && (forall i :: 0 <= i < |given| && given[i].ordering >= STAGE_FINALIZE ==> given[i].fn.WheelRecord?)
    && (exists i :: 0 <= i < |given| && given[i].ordering >= STAGE_FINALIZE)
  }

  lemma LastIsTheRecord(given: seq<Stabilizer>)
    requires RecordIsFinal(given)
    ensures var l := Sequenced(given); |l| == |given| > 0 && l[|l| - 1].fn.WheelRecord?
  {
    var l := Sequenced(given);
    SequencedLength(given);
    var i :| 0 <= i < |given| && given[i].ordering >= STAGE_FINALIZE;
    SameMembers(l, given, given[i]);
    assert given[i] in l;
    var j :| 0 <= j < |l| && l[j] == given[i];
    var last := l[|l| - 1];
    assert last.ordering >= STAGE_FINALIZE by {
      if j < |l| - 1 { assert ByOrdering(l[j], last) <= 0; }
    }
    SameMembers(l, given, last);
    assert last in l;
  }

  /** For any stabilizers in any input order where only the RECORD writer has an ordering of
      STAGE_FINALIZE or later: if the final archive has a RECORD and its other entries can be
      read, the RECORD lists exactly the other entries with their final digests and sizes. */
  lemma FinalRecordAgrees(given: seq<Stabilizer>, digest: string -> string, states: seq<seq<ZipEntry>>)
    requires forall c :: Plain(digest(c))
    requires RecordIsFinal(given) && FullRuns(Sequenced(given), digest, states)
    ensures var final := states[|states| - 1];
            var i := FirstRecord(final);
            i < |final| && Readable(final, i) ==> RecordAgrees(final, i, digest)
  {
    LastIsTheRecord(given);
    var n := |Sequenced(given)| - 1;
    assert Applies(Sequenced(given)[n].fn, digest, states[n], states[n + 1]);
    RecordedAgrees(states[n], digest);
    hide RecordAgrees, Recorded;
  }

  // ----- the pipeline of built-in stabilizers is canonical -----

  ghost predicate OnlyBuiltins(given: seq<Stabilizer>) {
    forall i :: 0 <= i < |given| ==> given[i].fn.BuiltinFn?
  }

  function Builtins(l: seq<Stabilizer>): (bs: seq<Builtin>)
    requires OnlyBuiltins(l)
    ensures |bs| == |l| && forall i :: 0 <= i < |l| ==> bs[i] == l[i].fn.b
  {
    seq(|l|, i requires 0 <= i < |l| => l[i].fn.b)
  }

  ghost predicate HasAllSeven(given: seq<Stabilizer>)
    requires OnlyBuiltins(given)
  {
    AllSeven(Builtins(given))
  }

  /** Sequencing by stage keeps the stabilizers, whatever their orderings. */
  lemma SequencedBuiltins(given: seq<Stabilizer>)
    requires OnlyBuiltins(given) && HasAllSeven(given)
    ensures OnlyBuiltins(Sequenced(given)) && AllSeven(Builtins(Sequenced(given)))
  {
    var l := Sequenced(given);
    SequencedLength(given);
    forall i | 0 <= i < |l| ensures l[i].fn.BuiltinFn? {
      SameMembers(l, given, l[i]);
      assert l[i] in l;
    }
    forall b | b in Builtins(given) ensures b in Builtins(l) {
      var i :| 0 <= i < |given| && Builtins(given)[i] == b;
      SameMembers(l, given, given[i]);
      assert given[i] in l;
      var j :| 0 <= j < |l| && l[j] == given[i];
      assert Builtins(l)[j] == b;
    }
  }

  /** StabilizeZip with the seven built-in stabilizers, however listed and staged: two
      archives with distinct names end the same if and only if their names and contents are. */
  lemma StabilizedSameIff(given1: seq<Stabilizer>, s: seq<seq<ZipEntry>>, given2: seq<Stabilizer>,
                          r: seq<seq<ZipEntry>>, digest: string -> string)
    requires OnlyBuiltins(given1) && HasAllSeven(given1) && OnlyBuiltins(given2) && HasAllSeven(given2)
    requires FullRuns(Sequenced(given1), digest, s) && FullRuns(Sequenced(given2), digest, r)
    requires DistinctNames(NameOf, s[0]) && DistinctNames(NameOf, r[0])
    ensures s[|s| - 1] == r[|r| - 1] <==> SameCores(s[0], r[0])
  {
    SequencedBuiltins(given1);
    SequencedBuiltins(given2);
    assert Runs(ZIP, Builtins(Sequenced(given1)), s) && Runs(ZIP, Builtins(Sequenced(given2)), r);
    hide Runs, SameCores, AllSeven, FullRuns;
    ZipCanonical(Builtins(Sequenced(given1)), s, Builtins(Sequenced(given2)), r);
  }
}
