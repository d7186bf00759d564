/** Tar stabilization (pkg/stabilize/tar.go). Entries are kept as values. */
module TarStabilize {
  import opened Canonical
  import opened RepeatedNames
  import opened Options

  /** tar.Header: every field a stabilizer could see. Times are seconds since the Unix epoch. */
  datatype Header = Header(
    typeflag: char, name: string, linkname: string, size: int,
    mode: int, uid: int, gid: int, uname: string, gname: string,
    modTime: int, accessTime: int, changeTime: int, devmajor: int, devminor: int,
    xattrs: map<string, string>, paxRecords: map<string, string>, format: int)

  datatype TarEntry = TarEntry(header: Header, body: seq<int>)

  const MODE_PERM := 0x1ff       // 0777
  const FORMAT_PAX := 4
  const ZERO_TIME := -62135596800

  /** The six stabilizers, and any stabilizer that has no function for tar. */
  datatype Stabilizer = FileOrder | Time | FileMode | Owners | Xattrs | DeviceNumber | Foreign(id: int)

  // ----- what a set of them makes of a header, each field on its own -----

  function CleanHeader(done: set<Stabilizer>, h: Header): Header {
    h.(mode := if FileMode in done then MODE_PERM else h.mode,
       uid := if Owners in done then 0 else h.uid,
       gid := if Owners in done then 0 else h.gid,
       uname := if Owners in done then "" else h.uname,
       gname := if Owners in done then "" else h.gname,
       modTime := if Time in done then 0 else h.modTime,
       accessTime := if Time in done then 0 else h.accessTime,
       changeTime := if Time in done then ZERO_TIME else h.changeTime,
       format := if Time in done then FORMAT_PAX else h.format,
       devmajor := if DeviceNumber in done then 0 else h.devmajor,
       devminor := if DeviceNumber in done then 0 else h.devminor,
       xattrs := if Xattrs in done then map[] else h.xattrs,
       paxRecords := if Xattrs in done then map[] else h.paxRecords)
  }

  function Clean(done: set<Stabilizer>, e: TarEntry): TarEntry {
    e.(header := CleanHeader(done, e.header))
  }

  /** The entry functions, field by field as the source assigns them. */
  function Apply(s: Stabilizer, e: TarEntry): TarEntry {
    var h := e.header;
    match s
    case Time => e.(header := h.(modTime := 0, accessTime := 0, changeTime := ZERO_TIME, format := FORMAT_PAX))
    case FileMode => e.(header := h.(mode := MODE_PERM))
    case Owners => e.(header := h.(uid := 0, gid := 0, uname := "", gname := ""))
    case Xattrs => e.(header := h.(xattrs := map[], paxRecords := map[]))
    case DeviceNumber => e.(header := h.(devmajor := 0, devminor := 0))
    case FileOrder => e
    case Foreign(_) => e
  }

  function NameOf(e: TarEntry): string { e.header.name }
  predicate Sorts(s: Stabilizer) { s == FileOrder }

  const TAR: Pipeline<Stabilizer, TarEntry> := Pipeline(NameOf, Sorts, Apply, Clean)

  lemma TarIsLawful()
    ensures Lawful(TAR)
  {
    forall done: set<Stabilizer>, s, e ensures Apply(s, Clean(done, e)) == Clean(done + {s}, e) {
      ApplyAfterClean(done, s, e);
    }
    hide Apply, CleanHeader;
    NamesAndNothing();
  }

  lemma ApplyAfterClean(done: set<Stabilizer>, s: Stabilizer, e: TarEntry)
    ensures Apply(s, Clean(done, e)) == Clean(done + {s}, e)
  {
    match s
    case Time =>
    case FileMode =>
    case Owners =>
    case Xattrs =>
    case DeviceNumber =>
    case FileOrder =>
    case Foreign(_) =>
  }

  lemma NamesAndNothing()
    ensures forall s, e :: NameOf(Apply(s, e)) == NameOf(e)
    ensures forall done, e :: NameOf(Clean(done, e)) == NameOf(e)
    ensures forall e :: Clean({}, e) == e
    ensures forall s, e :: Sorts(s) ==> Apply(s, e) == e
  {
  }

  // ----- the procedure -----

  predicate Unsupported(e: TarEntry) {
    e.header.typeflag == 'S' || e.header.typeflag == 'L' || e.header.typeflag == 'K'
  }

  class TarArchive {
    var files: seq<TarEntry>

    constructor (files: seq<TarEntry>)
      ensures this.files == files
    {
      this.files := files;
    }

    method SortFiles()
      modifies this
      ensures Step(TAR, FileOrder, old(files), files)
    {
      files := SortByName(files, NameOf);
    }

    /** The inner loop: one stabilizer over all entries. */
    method EachEntry(s: Stabilizer)
      requires s != FileOrder
      modifies this
      ensures Step(TAR, s, old(files), files)
    {
      for i := 0 to |files|
        invariant |files| == |old(files)|
        invariant forall k :: 0 <= k < i ==> files[k] == Apply(s, old(files)[k])
        invariant forall k :: i <= k < |files| ==> files[k] == old(files)[k]
      {
        files := files[i := Apply(s, files[i])];
      }
      assert files == Map(e => TAR.step(s, e), old(files));
    }
  }

  /** StabilizeTar: fails on GNU sparse and long-name entries, else runs the stabilizers. */
  method StabilizeTar(input: seq<TarEntry>, stabilizers: seq<Stabilizer>)
    returns (r: Option<seq<TarEntry>>, ghost states: seq<seq<TarEntry>>)
    ensures r.None? <==> exists i :: 0 <= i < |input| && Unsupported(input[i])
    ensures r.Some? ==> Runs(TAR, stabilizers, states) && states[0] == input && states[|stabilizers|] == r.value
  {
    var ents := [];
    states := [];
    for i := 0 to |input|
      invariant ents == input[..i] && forall k :: 0 <= k < i ==> !Unsupported(input[k])
    {
      if Unsupported(input[i]) { return None, []; }
      ents := ents + [input[i]];
    }
    assert input[..|input|] == input;
    var archive := new TarArchive(ents);
    states := [archive.files];
    hide Step;
    for i := 0 to |stabilizers|
      invariant |states| == i + 1 && states[0] == input && states[i] == archive.files
      invariant forall k :: 0 <= k < i ==> Step(TAR, stabilizers[k], states[k], states[k + 1])
    {
      if stabilizers[i] == FileOrder {
        archive.SortFiles();
      } else {
        archive.EachEntry(stabilizers[i]);
      }
      states := states + [archive.files];
    }
    r := Some(archive.files);
  }

  // ----- the canonical form -----

  /** What survives stabilization. */
  datatype Core = Core(name: string, typeflag: char, linkname: string, size: int, body: seq<int>)

  function CoreOf(e: TarEntry): Core {
    Core(e.header.name, e.header.typeflag, e.header.linkname, e.header.size, e.body)
  }

  function Stable(c: Core): TarEntry {
    TarEntry(Header(c.typeflag, c.name, c.linkname, c.size, MODE_PERM, 0, 0, "", "", 0, 0, ZERO_TIME, 0, 0, map[],
                    map[], FORMAT_PAX), c.body)
  }

  function StableForm(e: TarEntry): TarEntry { Stable(CoreOf(e)) }

  ghost predicate AllSix(l: seq<Stabilizer>) {
    FileOrder in l && Time in l && FileMode in l && Owners in l && Xattrs in l && DeviceNumber in l
  }

  lemma AllSixMake(l: seq<Stabilizer>)
    requires AllSix(l)
    ensures Makes(TAR, l, StableForm)
  {
    var i :| 0 <= i < |l| && l[i] == FileOrder;
    assert TAR.sorts(l[i]);
    forall e ensures Clean(Among(l), e) == StableForm(e) {}
  }

  /** The same entries as far as names, types, links, sizes and contents go, in any order. */
  ghost predicate SameCores(a: seq<TarEntry>, b: seq<TarEntry>) {
    SameElements(Map(CoreOf, a), Map(CoreOf, b))
  }

  /** Two tar archives with distinct entry names stabilize to the same archive if and only
      if they agree as sets on name, type, link name, size and body, whatever the orders
      in which the six stabilizers are listed and whatever else without effect on tar is. */
  lemma TarCanonical(l: seq<Stabilizer>, s: seq<seq<TarEntry>>, m: seq<Stabilizer>, r: seq<seq<TarEntry>>)
    requires AllSix(l) && AllSix(m) && Runs(TAR, l, s) && Runs(TAR, m, r)
    requires DistinctNames(NameOf, s[0]) && DistinctNames(NameOf, r[0])
    ensures s[|l|] == r[|m|] <==> SameCores(s[0], r[0])
  {
    TarIsLawful();
    AllSixMake(l);
    AllSixMake(m);
    FormsFromCores(CoreOf, Stable, StableForm, s[0], r[0]);
    hide Lawful, Makes, Runs, SameCores;
    SameIffSameForms(TAR, l, s, m, r, StableForm);
  }

  /** Stabilizing a stabilized tar archive, with the list in any order, changes nothing. */
  lemma TarIdempotent(l: seq<Stabilizer>, s: seq<seq<TarEntry>>, m: seq<Stabilizer>, r: seq<seq<TarEntry>>)
    requires AllSix(l) && AllSix(m) && Runs(TAR, l, s) && Runs(TAR, m, r)
    requires DistinctNames(NameOf, s[0]) && r[0] == s[|l|]
    ensures r[|m|] == s[|l|]
  {
    TarIsLawful();
    AllSixMake(l);
    AllSixMake(m);
    hide Lawful, Makes, Runs;
    Idempotent(TAR, l, s, m, r, StableForm);
  }

  /** With repeated names: the input determines the result if and only if entries of one name
      agree on type, link name, size and body. */
  lemma TarDeterminedIff(l: seq<Stabilizer>, input: seq<TarEntry>)
    requires AllSix(l)
    ensures Determined(TAR, l, input) <==> NamesDecide(NameOf, CoreOf, input)
  {
    TarIsLawful();
    AllSixMake(l);
    DeterminedIff(TAR, l, StableForm, input);
    forall x, y ensures StableForm(x) == StableForm(y) <==> CoreOf(x) == CoreOf(y) {
      assert CoreOf(StableForm(x)) == CoreOf(x) && CoreOf(StableForm(y)) == CoreOf(y);
    }
    hide Lawful, Makes, Determined, StableForm, CoreOf;
  }

  /** And then it is another archive's result if and only if the two have the same entries,
      as often, on name, type, link name, size and body. */
  lemma TarSameIff(l: seq<Stabilizer>, s: seq<seq<TarEntry>>, m: seq<Stabilizer>, r: seq<seq<TarEntry>>)
    requires AllSix(l) && AllSix(m) && Runs(TAR, l, s) && Runs(TAR, m, r) && Determined(TAR, l, s[0])
    ensures s[|l|] == r[|m|] <==> multiset(Map(CoreOf, s[0])) == multiset(Map(CoreOf, r[0]))
  {
    TarIsLawful();
    AllSixMake(l);
    AllSixMake(m);
    TarDeterminedIff(l, s[0]);
    hide Lawful, Makes, Runs, Determined, NamesDecide;
    SameIffSameCores(TAR, l, s, m, r, CoreOf, Stable, StableForm);
  }

  /** Two entries of one name keep an order the sort is free to choose: the input alone
      does not determine the output. */
  lemma DuplicateNamesAreAmbiguous(x: TarEntry, y: TarEntry)
    requires NameOf(x) == NameOf(y) && x != y
    ensures Step(TAR, FileOrder, [x, y], [x, y]) && Step(TAR, FileOrder, [x, y], [y, x])
  {
    Orders.EqualStrings(NameOf(x), NameOf(y));
    Orders.EqualStrings(NameOf(y), NameOf(x));
    assert multiset([x, y]) == multiset([y, x]);
  }
}
