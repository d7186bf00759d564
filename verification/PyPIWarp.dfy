/** Registry time travel for PyPI (internal/timewarp/pypi.go:82-221): the project document
    and the simple index. */
module PyPIWarp {
  import opened Options
  import opened Timestamps

  // ----- the project document -----

  /** A release file; without an upload time it is dropped. */
  datatype File = File(uploaded: Option<Stamp>, rest: int)

  datatype Info = Info(name: string, rest: int)

  /** `urls` is in the document and is left as it is. */
  datatype Project = Project(releases: Option<map<string, seq<File>>>, info: Info, urls: int)

  /** The version-specific request: project name and version to the info it answers with. */
  type Fetch = (string, string) -> Option<Info>

  predicate FilesParse(files: seq<File>) {
    forall i :: 0 <= i < |files| ==> files[i].uploaded != Some(Unparseable)
  }

  predicate Dated(f: File) { f.uploaded.Some? && f.uploaded.value.At? }

  /** Uploaded before one second past the date. */
  predicate InPast(f: File, at: int) {
    Dated(f) && f.uploaded.value.t < at + SECOND
  }

  function PastFiles(files: seq<File>, at: int): seq<File> {
    if files == [] then [] else
      PastFiles(files[..|files| - 1], at) + (if InPast(files[|files| - 1], at) then [files[|files| - 1]] else [])
  }

  /** The earliest upload as the loop finds it: a zero time counts as not yet set. */
  function FirstSeen(files: seq<File>): int {
    if files == [] then ZERO_TIME else
    var seen, f := FirstSeen(files[..|files| - 1]), files[|files| - 1];
    if Dated(f) && (f.uploaded.value.t < seen || seen == ZERO_TIME) then f.uploaded.value.t else seen
  }

  predicate Released(releases: map<string, seq<File>>, v: string, at: int) {
    v in releases && PastFiles(releases[v], at) != []
  }

  /** v is a released version first seen last; "" if there is none. */
  ghost predicate IsLatest(releases: map<string, seq<File>>, at: int, v: string) {
    || (v == "" && forall u :: Released(releases, u, at) ==> FirstSeen(releases[u]) <= ZERO_TIME)
    || (Released(releases, v, at) && FirstSeen(releases[v]) > ZERO_TIME
        && forall u :: Released(releases, u, at) ==> FirstSeen(releases[u]) <= FirstSeen(releases[v]))
  }

  ghost predicate AllParse(releases: map<string, seq<File>>) {
    forall v :: v in releases ==> FilesParse(releases[v])
  }

  function KeptReleases(releases: map<string, seq<File>>, at: int): map<string, seq<File>> {
    map v | v in releases && Released(releases, v, at) :: PastFiles(releases[v], at)
  }

  ghost function Outcome(p: Project, fetch: Fetch, at: int, latest: string): Option<Project> {
    if p.releases.None? || !AllParse(p.releases.value) then None
    else match fetch(p.info.name, latest)
      case None => None
      case Some(info) => Some(Project(Some(KeptReleases(p.releases.value, at)), info, p.urls))
  }

  ghost predicate Warps(p: Project, fetch: Fetch, at: int, r: Option<Project>) {
    if p.releases.None? then r == None
    else exists latest :: IsLatest(p.releases.value, at, latest) && r == Outcome(p, fetch, at, latest)
  }

  class PyPIDocument {
    var releases: Option<map<string, seq<File>>>
    var info: Info
    var urls: int

    ghost function View(): Project
      reads this
    {
      Project(releases, info, urls)
    }

    constructor (p: Project)
      ensures View() == p
    {
      releases, info, urls := p.releases, p.info, p.urls;
    }

    /** The loop over one release's files. */
    method ScanFiles(files: seq<File>, at: int) returns (ok: bool, past: seq<File>, firstSeen: int)
      ensures ok <==> FilesParse(files)
      ensures ok ==> past == PastFiles(files, at) && firstSeen == FirstSeen(files)
    {
      past, firstSeen := [], ZERO_TIME;
      hide PastFiles, FirstSeen;
      NoFiles(at);
      assert files[..0] == [];
      for i := 0 to |files|
        invariant FilesParse(files[..i])
        invariant past == PastFiles(files[..i], at) && firstSeen == FirstSeen(files[..i])
      {
        OneMoreFile(files, i, at);
        var f := files[i];
        if f.uploaded.None? { continue; }
        if f.uploaded.value.Unparseable? {
          return false, past, firstSeen;
        }
        var t := f.uploaded.value.t;
        if t < at + SECOND { past := past + [f]; }
        if t < firstSeen || firstSeen == ZERO_TIME { firstSeen := t; }
      }
      assert files[..|files|] == files;
      ok := true;
    }

    /** The loop over the releases, in any order, replacing each one's files. */
    method ScanReleases(all: map<string, seq<File>>, at: int)
      returns (ok: bool, kept: map<string, seq<File>>, latest: string)
      ensures ok <==> AllParse(all)
      ensures ok ==> kept == KeptReleases(all, at) && IsLatest(all, at, latest)
    {
      hide PastFiles, FirstSeen;
      kept, latest := all, "";
      var latestTime, future := ZERO_TIME, {};
      var rest := all.Keys;
      while rest != {}
        invariant rest <= all.Keys
        invariant forall v :: v in all && v !in rest ==> FilesParse(all[v])
        invariant kept.Keys == all.Keys
        invariant forall v :: v in all ==> kept[v] == if v in rest then all[v] else PastFiles(all[v], at)
        invariant forall v :: v in future <==> v in all && v !in rest && !Released(all, v, at)
        invariant forall u :: u !in rest && Released(all, u, at) ==> FirstSeen(all[u]) <= latestTime
        invariant if latestTime == ZERO_TIME then latest == ""
                  else latestTime > ZERO_TIME && Released(all, latest, at) && FirstSeen(all[latest]) == latestTime
      {
        var tag :| tag in rest;
        var parsed, past, firstSeen := ScanFiles(all[tag], at);
        if !parsed { return false, kept, latest; }
        if |past| == 0 {
          future := future + {tag};
        } else if firstSeen > latestTime {
          latest, latestTime := tag, firstSeen;
        }
        kept := kept[tag := past];
        rest := rest - {tag};
      }
      kept := map v | v in kept && v !in future :: kept[v];
      assert kept == KeptReleases(all, at);
      ok := true;
    }

    /** timeWarpPyPIProjectRequest. On an error the half-edited document is dropped by the caller. */
    method Warp(fetch: Fetch, at: int) returns (ok: bool)
      modifies this
      ensures Warps(old(View()), fetch, at, if ok then Some(View()) else None)
    {
      hide IsLatest, KeptReleases, AllParse;
      ghost var p := View();
      if releases.None? { return false; }
      var all := releases.value;
      var scanned, kept, latest := ScanReleases(all, at);
      if !scanned {
        SomeLatest(all, at);
        return false;
      }
      releases := Some(kept);
      var answer := fetch(info.name, latest);
      if answer.None? {
        assert Outcome(p, fetch, at, latest) == None;
        return false;
      }
      info := answer.value;
      assert Outcome(p, fetch, at, latest) == Some(View());
      ok := true;
    }
  }

  lemma NoFiles(at: int)
    ensures PastFiles([], at) == [] && FirstSeen([]) == ZERO_TIME
  {
  }

  lemma OneMoreFile(files: seq<File>, i: nat, at: int)
    requires i < |files|
    ensures FilesParse(files[..i + 1]) <==> FilesParse(files[..i]) && files[i].uploaded != Some(Unparseable)
    ensures PastFiles(files[..i + 1], at) == PastFiles(files[..i], at) + if InPast(files[i], at) then [files[i]] else []
    ensures var seen := FirstSeen(files[..i]);
            FirstSeen(files[..i + 1]) ==
            if Dated(files[i]) && (files[i].uploaded.value.t < seen || seen == ZERO_TIME) then files[i].uploaded.value.t
            else seen
  {
    assert files[..i + 1][..i] == files[..i];
  }

  lemma SomeLatest(releases: map<string, seq<File>>, at: int)
    ensures exists v :: IsLatest(releases, at, v)
  {
    var v := NewestOf(releases, at, releases.Keys);
    assert IsLatest(releases, at, v);
  }

  lemma {:induction false} NewestOf(releases: map<string, seq<File>>, at: int, among: set<string>) returns (v: string)
    requires among <= releases.Keys
    ensures || (v == "" && forall u :: Released(releases, u, at) && u in among ==> FirstSeen(releases[u]) <= ZERO_TIME)
            || (Released(releases, v, at) && v in among && FirstSeen(releases[v]) > ZERO_TIME
                && forall u :: Released(releases, u, at) && u in among ==>
                               FirstSeen(releases[u]) <= FirstSeen(releases[v]))
    decreases among
  {
    hide PastFiles, FirstSeen;
    if among == {} {
      v := "";
    } else {
      var x :| x in among;
      v := NewestOf(releases, at, among - {x});
      var best := if v in among - {x} && Released(releases, v, at) && FirstSeen(releases[v]) > ZERO_TIME
          then FirstSeen(releases[v]) else ZERO_TIME;
      if Released(releases, x, at) && FirstSeen(releases[x]) > best { v := x; }
    }
  }

  // ----- what the project warp promises -----

  /** Uploads have real times, versions are named, and no two were first seen together. */
  ghost predicate WellFormed(releases: map<string, seq<File>>) {
    && "" !in releases
    && (forall v, i :: v in releases && 0 <= i < |releases[v]| && Dated(releases[v][i]) ==>
                       releases[v][i].uploaded.value.t > ZERO_TIME)
    && (forall u, v :: u in releases && v in releases && u != v && FirstSeen(releases[u]) > ZERO_TIME ==>
          FirstSeen(releases[u]) != FirstSeen(releases[v]))
  }

  /** The fetched info carries the name asked for. */
  ghost predicate NamesAreStable(fetch: Fetch) {
    forall name, v :: fetch(name, v).Some? ==> fetch(name, v).value.name == name
  }

  predicate RealTimes(files: seq<File>) {
    forall i :: 0 <= i < |files| && Dated(files[i]) ==> files[i].uploaded.value.t > ZERO_TIME
  }

  lemma {:induction false} PastMember(files: seq<File>, at: int, f: File)
    ensures f in PastFiles(files, at) <==> f in files && InPast(f, at)
  {
    if files != [] {
      var n := |files| - 1;
      PastMember(files[..n], at, f);
      assert files == files[..n] + [files[n]];
    }
  }

  lemma {:induction false} PastCompose(files: seq<File>, t1: int, t2: int)
    requires t1 <= t2
    ensures PastFiles(PastFiles(files, t2), t1) == PastFiles(files, t1)
  {
    if files != [] {
      var n := |files| - 1;
      PastCompose(files[..n], t1, t2);
      if InPast(files[n], t2) {
        var p := PastFiles(files, t2);
        assert p[..|p| - 1] == PastFiles(files[..n], t2);
      } else {
        assert PastFiles(files, t2) == PastFiles(files[..n], t2);
      }
    }
  }

  /** With real times the loop finds the minimum, and every file is not earlier. */
  lemma {:induction false} FirstSeenIsMin(files: seq<File>)
    requires RealTimes(files)
    ensures FirstSeen(files) >= ZERO_TIME
    ensures forall f :: f in files && Dated(f) ==> FirstSeen(files) != ZERO_TIME
                                                   && FirstSeen(files) <= f.uploaded.value.t
    ensures FirstSeen(files) != ZERO_TIME ==> exists f :: f in files && Dated(f)
                                                          && f.uploaded.value.t == FirstSeen(files)
  {
    if files != [] {
      var n := |files| - 1;
      FirstSeenIsMin(files[..n]);
      assert files == files[..n] + [files[n]];
      forall f | f in files && Dated(f) ensures FirstSeen(files) != ZERO_TIME
          && FirstSeen(files) <= f.uploaded.value.t {
        if f !in files[..n] { assert f == files[n]; }
      }
      if FirstSeen(files) != ZERO_TIME {
        if FirstSeen(files) == FirstSeen(files[..n]) {
          var f :| f in files[..n] && Dated(f) && f.uploaded.value.t == FirstSeen(files[..n]);
          assert f in files;
        } else {
          assert files[n] in files;
        }
      }
    }
  }

  /** Dropping the files that are not in the past keeps the first sighting. */
  lemma FirstSeenKept(files: seq<File>, at: int)
    requires RealTimes(files) && PastFiles(files, at) != []
    ensures FirstSeen(PastFiles(files, at)) == FirstSeen(files) && RealTimes(PastFiles(files, at))
    ensures ZERO_TIME < FirstSeen(files) < at + SECOND
  {
    var past := PastFiles(files, at);
    forall f ensures f in past <==> f in files && InPast(f, at) { PastMember(files, at, f); }
    assert forall i :: 0 <= i < |past| ==> past[i] in past;
    assert RealTimes(past);
    FirstSeenIsMin(files);
    FirstSeenIsMin(past);
    assert past[0] in past && InPast(past[0], at);
    var f :| f in files && Dated(f) && f.uploaded.value.t == FirstSeen(files);
    assert f in past;
    var g :| g in past && Dated(g) && g.uploaded.value.t == FirstSeen(past);
    assert g in files;
  }

  lemma LatestIsUnique(releases: map<string, seq<File>>, at: int, u: string, v: string)
    requires WellFormed(releases) && IsLatest(releases, at, u) && IsLatest(releases, at, v)
    ensures u == v
  {
    hide PastFiles, FirstSeen;
  }

  /** A version kept at t2 has at t1 the files, and the first sighting, it always had then. */
  lemma ReleaseComposes(releases: map<string, seq<File>>, t1: int, t2: int, v: string)
    requires WellFormed(releases) && t1 <= t2
    ensures var r2 := KeptReleases(releases, t2);
            && (Released(r2, v, t1) <==> Released(releases, v, t1))
            && (v in r2 ==> FirstSeen(r2[v]) == FirstSeen(releases[v])
                            && PastFiles(r2[v], t1) == PastFiles(releases[v], t1))
            && (v in r2 ==> v in releases)
  {
    if v in releases {
      PastCompose(releases[v], t1, t2);
      assert RealTimes(releases[v]);
      if PastFiles(releases[v], t2) != [] { FirstSeenKept(releases[v], t2); }
      assert PastFiles([], t1) == [];
    }
  }

  lemma KeptCompose(releases: map<string, seq<File>>, t1: int, t2: int)
    requires WellFormed(releases) && AllParse(releases) && t1 <= t2
    ensures KeptReleases(KeptReleases(releases, t2), t1) == KeptReleases(releases, t1)
    ensures AllParse(KeptReleases(releases, t2))
    ensures forall v :: IsLatest(KeptReleases(releases, t2), t1, v) <==> IsLatest(releases, t1, v)
  {
    var r2 := KeptReleases(releases, t2);
    forall v ensures (Released(r2, v, t1) <==> Released(releases, v, t1))
                     && (v in r2 ==> v in releases && FirstSeen(r2[v]) == FirstSeen(releases[v])
                                     && PastFiles(r2[v], t1) == PastFiles(releases[v], t1)) {
      ReleaseComposes(releases, t1, t2, v);
    }
    forall v | v in r2 ensures FilesParse(r2[v]) {
      forall i | 0 <= i < |r2[v]| ensures r2[v][i].uploaded != Some(Unparseable) {
        PastMember(releases[v], t2, r2[v][i]);
        assert r2[v][i] in r2[v];
      }
    }
    hide PastFiles, FirstSeen, AllParse;
    assert KeptReleases(r2, t1) == KeptReleases(releases, t1);
  }

  /** Project time travel composes, the fetch being a function of its request. */
  lemma ProjectWarpComposes(p: Project, fetch: Fetch, t1: int, t2: int, p2: Project, r: Option<Project>,
                            s: Option<Project>)
    requires NamesAreStable(fetch) && (p.releases.Some? ==> WellFormed(p.releases.value)) && t1 <= t2
    requires Warps(p, fetch, t2, Some(p2)) && Warps(p2, fetch, t1, r) && Warps(p, fetch, t1, s)
    ensures r == s
  {
    var latest2 :| IsLatest(p.releases.value, t2, latest2) && Some(p2) == Outcome(p, fetch, t2, latest2);
    var latest1 :| IsLatest(p.releases.value, t1, latest1) && s == Outcome(p, fetch, t1, latest1);
    var again :| IsLatest(p2.releases.value, t1, again) && r == Outcome(p2, fetch, t1, again);
    assert p2.releases.value == KeptReleases(p.releases.value, t2);
    KeptCompose(p.releases.value, t1, t2);
    LatestIsUnique(p.releases.value, t1, latest1, again);
    hide IsLatest, WellFormed, KeptReleases, AllParse;
  }

  lemma ProjectWarpIsIdempotent(p: Project, fetch: Fetch, at: int, p': Project, r: Option<Project>)
    requires NamesAreStable(fetch) && (p.releases.Some? ==> WellFormed(p.releases.value))
    requires Warps(p, fetch, at, Some(p')) && Warps(p', fetch, at, r)
    ensures r == Some(p')
  {
    ProjectWarpComposes(p, fetch, at, at, p', r, Some(p'));
  }

  predicate UploadedBefore(f: File, t: int) {
    f.uploaded.Some? && f.uploaded.value.At? && f.uploaded.value.t < t
  }

  /** The version asked for has a file uploaded by the date, and every other such version has
      one that is not later than any of its. */
  lemma LatestIsSeenLast(releases: map<string, seq<File>>, at: int, latest: string, u: string)
    requires WellFormed(releases) && IsLatest(releases, at, latest) && u in releases
    requires exists g :: g in releases[u] && UploadedBefore(g, at + 1_000_000_000)
    ensures latest in releases && exists f :: f in releases[latest] && UploadedBefore(f, at + 1_000_000_000)
    ensures exists g :: g in releases[u] && Dated(g)
              && forall f :: f in releases[latest] && Dated(f) ==> g.uploaded.value.t <= f.uploaded.value.t
  {
    var g :| g in releases[u] && UploadedBefore(g, at + 1_000_000_000);
    PastMember(releases[u], at, g);
    assert Released(releases, u, at);
    NothingReleasedIff(releases, at, latest);
    assert RealTimes(releases[u]) && RealTimes(releases[latest]);
    FirstSeenKept(releases[latest], at);
    var past := PastFiles(releases[latest], at);
    assert past[0] in past;
    PastMember(releases[latest], at, past[0]);
    FirstSeenIsMin(releases[u]);
    FirstSeenIsMin(releases[latest]);
    hide PastFiles, FirstSeen;
  }

  /** When it fails: no releases, an upload time that does not parse, or a fetch that fails. */
  lemma ProjectFailsIff(p: Project, fetch: Fetch, at: int)
    ensures (exists p' :: Warps(p, fetch, at, Some(p'))) <==>
              && p.releases.Some?
              && (forall v, f :: v in p.releases.value && f in p.releases.value[v] ==> f.uploaded != Some(Unparseable))
              && exists latest :: IsLatest(p.releases.value, at, latest) && fetch(p.info.name, latest).Some?
  {
    hide IsLatest, KeptReleases;
    if p.releases.Some? {
      forall v | v in p.releases.value
        ensures FilesParse(p.releases.value[v]) <==>
                  forall f :: f in p.releases.value[v] ==> f.uploaded != Some(Unparseable)
      {
        EachFileParses(p.releases.value[v]);
      }
      if exists latest :: IsLatest(p.releases.value, at, latest) && fetch(p.info.name, latest).Some? {
        var latest :| IsLatest(p.releases.value, at, latest) && fetch(p.info.name, latest).Some?;
        assert Warps(p, fetch, at, Outcome(p, fetch, at, latest));
      }
    }
  }

  lemma EachFileParses(files: seq<File>)
    ensures FilesParse(files) <==> forall f :: f in files ==> f.uploaded != Some(Unparseable)
  {
    if FilesParse(files) {
      forall f | f in files ensures f.uploaded != Some(Unparseable) {
        var i :| 0 <= i < |files| && files[i] == f;
      }
    }
  }

  /** What is left after a warp: exactly the versions with a file uploaded by the date, with
      exactly those files; the info is the newest such version's, but the urls stay as fetched. */
  lemma ProjectMeaning(p: Project, fetch: Fetch, at: int, p': Project, v: string, f: File)
    requires Warps(p, fetch, at, Some(p'))
    ensures v in p'.releases.value <==>
              v in p.releases.value && exists g :: g in p.releases.value[v] && UploadedBefore(g, at + 1_000_000_000)
    ensures v in p'.releases.value ==>
              (f in p'.releases.value[v] <==> f in p.releases.value[v] && UploadedBefore(f, at + 1_000_000_000))
    ensures exists latest :: IsLatest(p.releases.value, at, latest) && fetch(p.info.name, latest) == Some(p'.info)
    ensures p'.urls == p.urls
  {
    var latest :| IsLatest(p.releases.value, at, latest) && Some(p') == Outcome(p, fetch, at, latest);
    hide IsLatest;
    if v in p.releases.value {
      var files := p.releases.value[v];
      var past := PastFiles(files, at);
      forall g ensures g in past <==> g in files && InPast(g, at) { PastMember(files, at, g); }
      if past != [] { assert past[0] in past; }
    }
  }

  /** The version asked for is "" exactly when no release has a file uploaded by the date. */
  lemma NothingReleasedIff(releases: map<string, seq<File>>, at: int, latest: string)
    requires WellFormed(releases) && IsLatest(releases, at, latest)
    ensures latest == "" <==> forall v :: !Released(releases, v, at)
  {
    if latest == "" {
      forall v ensures !Released(releases, v, at) {
        if Released(releases, v, at) {
          assert RealTimes(releases[v]);
          FirstSeenKept(releases[v], at);
        }
      }
    }
  }

  /** Before the first release the version asked for is "", so the info is whatever the
      registry answers for the whole project today. */
  lemma NothingReleasedIsToday(p: Project, fetch: Fetch, at: int, p': Project)
    requires p.releases.Some? && WellFormed(p.releases.value) && Warps(p, fetch, at, Some(p'))
    requires forall v :: !Released(p.releases.value, v, at)
    ensures p'.releases == Some(map[]) && fetch(p.info.name, "") == Some(p'.info)
  {
    var latest :| IsLatest(p.releases.value, at, latest) && Some(p') == Outcome(p, fetch, at, latest);
    NothingReleasedIff(p.releases.value, at, latest);
    hide IsLatest, WellFormed;
    assert forall v :: v !in KeptReleases(p.releases.value, at);
  }

  /** Otherwise it is the info of a version with a file uploaded by the date. */
  lemma SomethingReleasedIsThen(p: Project, fetch: Fetch, at: int, p': Project)
    requires p.releases.Some? && WellFormed(p.releases.value) && Warps(p, fetch, at, Some(p'))
    requires exists v :: Released(p.releases.value, v, at)
    ensures exists latest :: Released(p.releases.value, latest, at) && fetch(p.info.name, latest) == Some(p'.info)
  {
    var latest :| IsLatest(p.releases.value, at, latest) && Some(p') == Outcome(p, fetch, at, latest);
    NothingReleasedIff(p.releases.value, at, latest);
  }

  /** A project whose only file was uploaded an hour after the date: nothing is left of its
      releases, yet the info is today's. */
  lemma TodaysInfo() returns (p: Project, fetch: Fetch, at: int, p': Project)
    ensures p.releases.Some? && WellFormed(p.releases.value) && NamesAreStable(fetch)
    ensures Warps(p, fetch, at, Some(p')) && p'.releases == Some(map[])
    ensures p'.info == p.info && fetch(p.info.name, "") == Some(p.info)
  {
    at := 3600 * SECOND;
    var files := [File(Some(At(2 * at)), 0)];
    p := Project(Some(map["1.0" := files]), Info("p", 1), 0);
    fetch := (name: string, v: string) => Some(Info(name, 1));
    p' := Project(Some(map[]), p.info, 0);
    assert files[..0] == [];
    assert FirstSeen([]) == ZERO_TIME && PastFiles([], at) == [];
    assert PastFiles(files, at) == [];
    assert IsLatest(p.releases.value, at, "");
    assert KeptReleases(p.releases.value, at) == map[];
    assert Outcome(p, fetch, at, "") == Some(p');
  }

  // ----- the simple index -----

  /** An entry of "files": its upload time and file name, where they are text. */
  datatype Entry = Entry(uploaded: Option<Stamp>, filename: Option<string>, rest: int) | NotAnObject

  /** "versions" holds text and possibly other values, which are dropped. */
  datatype Simple = Simple(files: Option<seq<Entry>>, versions: Option<seq<Option<string>>>)

  predicate EntryBad(e: Entry) { e.Entry? && e.uploaded == Some(Unparseable) }

  predicate EntryPast(e: Entry, at: int) {
    e.Entry? && e.uploaded.Some? && e.uploaded.value.At? && e.uploaded.value.t <= at
  }

  function PastEntries(files: seq<Entry>, at: int): seq<Entry> {
    if files == [] then [] else
      PastEntries(files[..|files| - 1], at) + (if EntryPast(files[|files| - 1], at) then [files[|files| - 1]] else [])
  }

  /** The versions the past entries' file names stand for. */
  function Seen(files: seq<Entry>, extract: string -> string, at: int): set<string> {
    if files == [] then {} else
      Seen(files[..|files| - 1], extract, at) + VersionOf(files[|files| - 1], extract, at)
  }

  function VersionOf(e: Entry, extract: string -> string, at: int): set<string> {
    if EntryPast(e, at) && e.filename.Some? && extract(e.filename.value) != "" then {extract(e.filename.value)} else {}
  }

  function VersionsIn(versions: seq<Option<string>>, past: set<string>): seq<Option<string>> {
    if versions == [] then [] else
      var n := |versions| - 1;
      VersionsIn(versions[..n], past) + (if versions[n].Some? && versions[n].value in past then [versions[n]] else [])
  }

  ghost function SimpleOutcome(d: Simple, extract: string -> string, at: int): Option<Simple> {
    if d.files.None? || (exists e :: e in d.files.value && EntryBad(e)) || d.versions.None? then None
    else Some(Simple(Some(PastEntries(d.files.value, at)),
                     Some(VersionsIn(d.versions.value, Seen(d.files.value, extract, at)))))
  }

  class SimpleDocument {
    var files: Option<seq<Entry>>
    var versions: Option<seq<Option<string>>>

    ghost function View(): Simple
      reads this
    {
      Simple(files, versions)
    }

    /** The loop over the files. */
    method ScanEntries(all: seq<Entry>, extract: string -> string, at: int)
      returns (ok: bool, past: seq<Entry>, seen: set<string>)
      ensures ok <==> forall e :: e in all ==> !EntryBad(e)
      ensures ok ==> past == PastEntries(all, at) && seen == Seen(all, extract, at)
    {
      past, seen := [], {};
      for i := 0 to |all|
        invariant forall e :: e in all[..i] ==> !EntryBad(e)
        invariant past == PastEntries(all[..i], at) && seen == Seen(all[..i], extract, at)
      {
        var e := all[i];
        assert all[..i + 1] == all[..i] + [e] && all[..i + 1][..i] == all[..i];
        if e.NotAnObject? || e.uploaded.None? { continue; }
        if e.uploaded.value.Unparseable? {
          assert e in all && EntryBad(e);
          return false, past, seen;
        }
        if e.uploaded.value.t > at { continue; }
        past := past + [e];
        if e.filename.None? { continue; }
        var version := extract(e.filename.value);
        if version != "" { seen := seen + {version}; }
      }
      assert all[..|all|] == all;
      ok := true;
    }

    /** timeWarpPyPISimpleRequest. On an error the half-edited document is dropped by the caller. */
    method Warp(extract: string -> string, at: int) returns (ok: bool)
      modifies this
      ensures SimpleOutcome(old(View()), extract, at) == if ok then Some(View()) else None
    {
      if files.None? { return false; }
      var all := files.value;
      var scanned, past, seen := ScanEntries(all, extract, at);
      if !scanned { return false; }
      files := Some(past);
      if versions.None? { return false; }
      var original, fixed := versions.value, [];
      for i := 0 to |original|
        invariant files == Some(past) && versions == Some(original)
        invariant fixed == VersionsIn(original[..i], seen)
      {
        assert original[..i + 1][..i] == original[..i];
        if original[i].Some? && original[i].value in seen { fixed := fixed + [original[i]]; }
      }
      assert original[..|original|] == original;
      versions := Some(fixed);
      ok := true;
    }
  }

  lemma {:induction false} PastEntryMember(files: seq<Entry>, at: int, e: Entry)
    ensures e in PastEntries(files, at) <==> e in files && EntryPast(e, at)
  {
    if files != [] {
      var n := |files| - 1;
      PastEntryMember(files[..n], at, e);
      assert files == files[..n] + [files[n]];
    }
  }

  lemma {:induction false} PastEntriesCompose(files: seq<Entry>, t1: int, t2: int)
    requires t1 <= t2
    ensures PastEntries(PastEntries(files, t2), t1) == PastEntries(files, t1)
  {
    if files != [] {
      var n := |files| - 1;
      PastEntriesCompose(files[..n], t1, t2);
      if EntryPast(files[n], t2) {
        var p := PastEntries(files, t2);
        assert p[..|p| - 1] == PastEntries(files[..n], t2);
      } else {
        assert PastEntries(files, t2) == PastEntries(files[..n], t2);
      }
    }
  }

  lemma {:induction false} VersionsCompose(versions: seq<Option<string>>, early: set<string>, late: set<string>)
    requires early <= late
    ensures VersionsIn(VersionsIn(versions, late), early) == VersionsIn(versions, early)
  {
    if versions != [] {
      var n := |versions| - 1;
      VersionsCompose(versions[..n], early, late);
      if versions[n].Some? && versions[n].value in late {
        var p := VersionsIn(versions, late);
        assert p[..|p| - 1] == VersionsIn(versions[..n], late);
      } else {
        assert VersionsIn(versions, late) == VersionsIn(versions[..n], late);
      }
    }
  }

  lemma {:induction false} SeenMember(files: seq<Entry>, extract: string -> string, at: int, v: string)
    ensures v in Seen(files, extract, at) <==> exists e :: e in files && v in VersionOf(e, extract, at)
  {
    if files != [] {
      var n := |files| - 1;
      SeenMember(files[..n], extract, at, v);
      assert files == files[..n] + [files[n]];
      assert files[n] in files;
    }
  }

  lemma {:induction false} SeenComposes(files: seq<Entry>, extract: string -> string, t1: int, t2: int)
    requires t1 <= t2
    ensures Seen(PastEntries(files, t2), extract, t1) == Seen(files, extract, t1) <= Seen(files, extract, t2)
  {
    if files != [] {
      var n := |files| - 1;
      SeenComposes(files[..n], extract, t1, t2);
      if EntryPast(files[n], t2) {
        var p := PastEntries(files, t2);
        assert p[..|p| - 1] == PastEntries(files[..n], t2);
      } else {
        assert PastEntries(files, t2) == PastEntries(files[..n], t2);
      }
    }
  }

  /** The simple index composes without further hypotheses, and fails or succeeds alike
      for every date. */
  lemma SimpleWarpComposes(d: Simple, extract: string -> string, t1: int, t2: int)
    requires t1 <= t2
    ensures SimpleOutcome(d, extract, t1).Some? <==> SimpleOutcome(d, extract, t2).Some?
    ensures SimpleOutcome(d, extract, t2).Some? ==>
              SimpleOutcome(SimpleOutcome(d, extract, t2).value, extract, t1) == SimpleOutcome(d, extract, t1)
  {
    if SimpleOutcome(d, extract, t2).Some? {
      var files, versions := d.files.value, d.versions.value;
      forall e | e in PastEntries(files, t2) ensures !EntryBad(e) { PastEntryMember(files, t2, e); }
      SeenComposes(files, extract, t1, t2);
      VersionsCompose(versions, Seen(files, extract, t1), Seen(files, extract, t2));
      PastEntriesCompose(files, t1, t2);
    }
  }

  /** When it fails: no files, an upload time that does not parse, or no versions. */
  lemma SimpleFailsIff(d: Simple, extract: string -> string, at: int)
    ensures SimpleOutcome(d, extract, at).Some? <==>
              && d.files.Some? && d.versions.Some?
              && forall e :: e in d.files.value && e.Entry? ==> e.uploaded != Some(Unparseable)
  {
  }

  predicate UploadedBy(e: Entry, t: int) {
    e.Entry? && e.uploaded.Some? && e.uploaded.value.At? && e.uploaded.value.t <= t
  }

  /** What is left of the index: the files uploaded by the date, and the listed versions
      that the name of one of them stands for. */
  lemma SimpleMeaning(d: Simple, extract: string -> string, at: int, e: Entry, v: string)
    requires SimpleOutcome(d, extract, at).Some?
    ensures var d' := SimpleOutcome(d, extract, at).value;
            && (e in d'.files.value <==> e in d.files.value && UploadedBy(e, at))
            && (Some(v) in d'.versions.value <==>
                && Some(v) in d.versions.value && v != ""
                && exists f :: f in d.files.value && UploadedBy(f, at) && f.filename.Some?
                               && extract(f.filename.value) == v)
            && None !in d'.versions.value
  {
    PastEntryMember(d.files.value, at, e);
    SeenMember(d.files.value, extract, at, v);
    if f :| f in d.files.value && UploadedBy(f, at) && f.filename.Some? && extract(f.filename.value) == v && v != "" {
      assert v in VersionOf(f, extract, at);
    }
    VersionsMember(d.versions.value, Seen(d.files.value, extract, at), Some(v));
    VersionsMember(d.versions.value, Seen(d.files.value, extract, at), None);
  }

  lemma {:induction false} VersionsMember(versions: seq<Option<string>>, past: set<string>, v: Option<string>)
    ensures v in VersionsIn(versions, past) <==> v in versions && v.Some? && v.value in past
  {
    if versions != [] {
      var n := |versions| - 1;
      VersionsMember(versions[..n], past, v);
      assert versions == versions[..n] + [versions[n]];
    }
  }
}
