/** Zip stabilization (pkg/stabilize/zip.go). Entries are kept as values. */
module ZipStabilize {
  import opened Canonical
  import opened RepeatedNames
  import opened Options

  /** zip.FileHeader. Times are milliseconds since the Unix epoch. */
  datatype FileHeader = FileHeader(
    name: string, comment: string, nonUTF8: bool, creatorVersion: int, readerVersion: int, flags: bv16, method_: int,
    modified: int, modifiedTime: int, modifiedDate: int, crc32: int,
    compressedSize: int, uncompressedSize: int, compressedSize64: int, uncompressedSize64: int,
    extra: seq<int>, externalAttrs: int)

  /** MutableZipFile: the content it would be opened to, None when opening fails. */
  datatype ZipEntry = ZipEntry(header: FileHeader, content: Option<string>)

  const STORE := 0
  const DATA_DESCRIPTOR_FLAG: bv16 := 0x8

  /** The seven stabilizers, and any stabilizer that has no function for zip. */
  datatype Builtin =
    FileOrder | ModifiedTime | Compression | DataDescriptor | FileEncoding | FileMode | Misc | Foreign(id: int)

  function ClearDescriptor(f: bv16): bv16 { f & !DATA_DESCRIPTOR_FLAG }
  function OnlyDescriptor(f: bv16): bv16 { f & DATA_DESCRIPTOR_FLAG }

  /** The two stabilizers that touch the flags clear complementary parts of them. */
  function CleanFlags(done: set<Builtin>, f: bv16): bv16 {
    var g := if DataDescriptor in done then ClearDescriptor(f) else f;
    if Misc in done then OnlyDescriptor(g) else g
  }

  function CleanHeader(done: set<Builtin>, h: FileHeader): FileHeader {
    h.(comment := if Misc in done then "" else h.comment,
       nonUTF8 := if FileEncoding in done then false else h.nonUTF8,
       creatorVersion := if FileMode in done then 0 else h.creatorVersion,
       readerVersion := if Misc in done then 0 else h.readerVersion,
       flags := CleanFlags(done, h.flags),
       method_ := if Compression in done then STORE else h.method_,
       modified := if ModifiedTime in done then 0 else h.modified,
       modifiedTime := if ModifiedTime in done then 0 else h.modifiedTime,
       modifiedDate := if ModifiedTime in done then 0 else h.modifiedDate,
       crc32 := if DataDescriptor in done then 0 else h.crc32,
       compressedSize := if DataDescriptor in done then 0 else h.compressedSize,
       uncompressedSize := if DataDescriptor in done then 0 else h.uncompressedSize,
       compressedSize64 := if DataDescriptor in done then 0 else h.compressedSize64,
       uncompressedSize64 := if DataDescriptor in done then 0 else h.uncompressedSize64,
       extra := if Misc in done then [] else h.extra,
       externalAttrs := if FileMode in done then 0 else h.externalAttrs)
  }

  function Clean(done: set<Builtin>, e: ZipEntry): ZipEntry {
    e.(header := CleanHeader(done, e.header))
  }

  /** The entry functions, field by field as the source assigns them. */
  function Apply(s: Builtin, e: ZipEntry): ZipEntry {
    var h := e.header;
    match s
    case ModifiedTime => e.(header := h.(modified := 0, modifiedDate := 0, modifiedTime := 0))
    case Compression => e.(header := h.(method_ := STORE))
    case DataDescriptor =>
      e.(header := h.(flags := ClearDescriptor(h.flags), crc32 := 0, compressedSize := 0, compressedSize64 := 0,
                      uncompressedSize := 0, uncompressedSize64 := 0))
    case FileEncoding => e.(header := h.(nonUTF8 := false))
    case FileMode => e.(header := h.(creatorVersion := 0, externalAttrs := 0))
    case Misc => e.(header := h.(comment := "", readerVersion := 0, extra := [], flags := OnlyDescriptor(h.flags)))
    case FileOrder => e
    case Foreign(_) => e
  }

  function NameOf(e: ZipEntry): string { e.header.name }
  predicate Sorts(s: Builtin) { s == FileOrder }

  const ZIP: Pipeline<Builtin, ZipEntry> := Pipeline(NameOf, Sorts, Apply, Clean)

  lemma FlagFacts(f: bv16)
    ensures ClearDescriptor(ClearDescriptor(f)) == ClearDescriptor(f)
    ensures OnlyDescriptor(OnlyDescriptor(f)) == OnlyDescriptor(f)
    ensures ClearDescriptor(OnlyDescriptor(f)) == 0
    ensures OnlyDescriptor(ClearDescriptor(f)) == 0
    ensures ClearDescriptor(0) == 0 && OnlyDescriptor(0) == 0
  {
    BitFacts(f);
  }

  lemma BitFacts(f: bv16)
    ensures (f & !DATA_DESCRIPTOR_FLAG) & !DATA_DESCRIPTOR_FLAG == f & !DATA_DESCRIPTOR_FLAG
    ensures (f & DATA_DESCRIPTOR_FLAG) & DATA_DESCRIPTOR_FLAG == f & DATA_DESCRIPTOR_FLAG
    ensures (f & DATA_DESCRIPTOR_FLAG) & !DATA_DESCRIPTOR_FLAG == 0
    ensures (f & !DATA_DESCRIPTOR_FLAG) & DATA_DESCRIPTOR_FLAG == 0
    ensures (0 as bv16) & !DATA_DESCRIPTOR_FLAG == 0 && (0 as bv16) & DATA_DESCRIPTOR_FLAG == 0
  {
  }

  lemma ClearAfterClean(done: set<Builtin>, f: bv16)
    ensures CleanFlags(done + {DataDescriptor}, f) == ClearDescriptor(CleanFlags(done, f))
  {
    hide ClearDescriptor, OnlyDescriptor;
    FlagFacts(f);
    FlagFacts(ClearDescriptor(f));
  }

  lemma OnlyAfterClean(done: set<Builtin>, f: bv16)
    ensures CleanFlags(done + {Misc}, f) == OnlyDescriptor(CleanFlags(done, f))
  {
    hide ClearDescriptor, OnlyDescriptor;
    FlagFacts(f);
    FlagFacts(ClearDescriptor(f));
  }

  lemma FlagsAfterClean(done: set<Builtin>, f: bv16, s: Builtin)
    ensures CleanFlags(done + {s}, f) == if s == DataDescriptor then ClearDescriptor(CleanFlags(done, f))
                                         else if s == Misc then OnlyDescriptor(CleanFlags(done, f))
                                              else CleanFlags(done, f)
  {
    hide ClearDescriptor, OnlyDescriptor;
    if s == DataDescriptor {
      ClearAfterClean(done, f);
    } else if s == Misc {
      OnlyAfterClean(done, f);
    }
  }

  lemma ApplyAfterClean(done: set<Builtin>, s: Builtin, e: ZipEntry)
    ensures Apply(s, Clean(done, e)) == Clean(done + {s}, e)
  {
    FlagsAfterClean(done, e.header.flags, s);
    hide CleanFlags, ClearDescriptor, OnlyDescriptor;
    match s
    case ModifiedTime =>
    case Compression =>
    case DataDescriptor =>
    case FileEncoding =>
    case FileMode =>
    case Misc =>
    case FileOrder =>
    case Foreign(_) =>
  }

  lemma ZipIsLawful()
    ensures Lawful(ZIP)
  {
    forall done: set<Builtin>, s, e ensures Apply(s, Clean(done, e)) == Clean(done + {s}, e) {
      ApplyAfterClean(done, s, e);
    }
    hide Apply, CleanHeader;
    NamesAndNothing();
  }

  lemma NamesAndNothing()
    ensures forall s, e :: NameOf(Apply(s, e)) == NameOf(e)
    ensures forall done, e :: NameOf(Clean(done, e)) == NameOf(e)
    ensures forall e :: Clean({}, e) == e
    ensures forall s, e :: Sorts(s) ==> Apply(s, e) == e
  {
  }

  // ----- the canonical form -----

  /** What survives stabilization. */
  datatype Core = Core(name: string, content: Option<string>)

  function CoreOf(e: ZipEntry): Core { Core(e.header.name, e.content) }

  function Stable(c: Core): ZipEntry {
    ZipEntry(FileHeader(c.name, "", false, 0, 0, 0, STORE, 0, 0, 0, 0, 0, 0, 0, 0, [], 0), c.content)
  }

  function StableForm(e: ZipEntry): ZipEntry { Stable(CoreOf(e)) }

  ghost predicate AllSeven(l: seq<Builtin>) {
    FileOrder in l && ModifiedTime in l && Compression in l && DataDescriptor in l && FileEncoding in l
        && FileMode in l && Misc in l
  }

  lemma AllSevenMake(l: seq<Builtin>)
    requires AllSeven(l)
    ensures Makes(ZIP, l, StableForm)
  {
    var i :| 0 <= i < |l| && l[i] == FileOrder;
    assert ZIP.sorts(l[i]);
    forall e ensures Clean(Among(l), e) == StableForm(e) { FlagFacts(e.header.flags); }
  }

  /** The same names and contents, in any order. */
  ghost predicate SameCores(a: seq<ZipEntry>, b: seq<ZipEntry>) {
    SameElements(Map(CoreOf, a), Map(CoreOf, b))
  }

  /** Two zip archives with distinct entry names stabilize to the same entries if and only
      if they agree as sets on name and content, whatever the orders in which the seven
      stabilizers are listed. */
  lemma ZipCanonical(l: seq<Builtin>, s: seq<seq<ZipEntry>>, m: seq<Builtin>, r: seq<seq<ZipEntry>>)
    requires AllSeven(l) && AllSeven(m) && Runs(ZIP, l, s) && Runs(ZIP, m, r)
    requires DistinctNames(NameOf, s[0]) && DistinctNames(NameOf, r[0])
    ensures s[|l|] == r[|m|] <==> SameCores(s[0], r[0])
  {
    ZipIsLawful();
    AllSevenMake(l);
    AllSevenMake(m);
    FormsFromCores(CoreOf, Stable, StableForm, s[0], r[0]);
    hide Lawful, Makes, Runs, SameCores;
    SameIffSameForms(ZIP, l, s, m, r, StableForm);
  }

  /** With repeated names: the input determines the result if and only if entries of one name
      have one content. */
  lemma ZipDeterminedIff(l: seq<Builtin>, input: seq<ZipEntry>)
    requires AllSeven(l)
    ensures Determined(ZIP, l, input) <==> NamesDecide(NameOf, CoreOf, input)
  {
    ZipIsLawful();
    AllSevenMake(l);
    DeterminedIff(ZIP, l, StableForm, input);
    forall x, y ensures StableForm(x) == StableForm(y) <==> CoreOf(x) == CoreOf(y) {
      assert CoreOf(StableForm(x)) == CoreOf(x) && CoreOf(StableForm(y)) == CoreOf(y);
    }
    hide Lawful, Makes, Determined, StableForm, CoreOf;
  }

  lemma ZipSameIff(l: seq<Builtin>, s: seq<seq<ZipEntry>>, m: seq<Builtin>, r: seq<seq<ZipEntry>>)
    requires AllSeven(l) && AllSeven(m) && Runs(ZIP, l, s) && Runs(ZIP, m, r) && Determined(ZIP, l, s[0])
    ensures s[|l|] == r[|m|] <==> multiset(Map(CoreOf, s[0])) == multiset(Map(CoreOf, r[0]))
  {
    ZipIsLawful();
    AllSevenMake(l);
    AllSevenMake(m);
    ZipDeterminedIff(l, s[0]);
    hide Lawful, Makes, Runs, Determined, NamesDecide;
    SameIffSameCores(ZIP, l, s, m, r, CoreOf, Stable, StableForm);
  }

  lemma ZipIdempotent(l: seq<Builtin>, s: seq<seq<ZipEntry>>, m: seq<Builtin>, r: seq<seq<ZipEntry>>)
    requires AllSeven(l) && AllSeven(m) && Runs(ZIP, l, s) && Runs(ZIP, m, r)
    requires DistinctNames(NameOf, s[0]) && r[0] == s[|l|]
    ensures r[|m|] == s[|l|]
  {
    ZipIsLawful();
    AllSevenMake(l);
    AllSevenMake(m);
    hide Lawful, Makes, Runs;
    Idempotent(ZIP, l, s, m, r, StableForm);
  }
}
