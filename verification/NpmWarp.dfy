/** Registry time travel for npm documents (internal/timewarp/npm.go:86-156). */
module NpmWarp {
  import opened Options
  import opened Timestamps

  /** Any JSON value; only its presence matters here. */
  datatype Json = Null | Text(s: string) | Other(id: int)

  /** One published version: an object, of which two fields are read, or something else. */
  datatype Version = Version(repository: Json, description: Json, rest: int) | NotAnObject

  datatype Doc = Doc(times: Option<map<string, Stamp>>, versions: Option<map<string, Version>>,
                     repository: Json, description: Json, distTags: Json)

  /** Formatting as RFC 3339 drops the fraction of a second. */
  function Truncated(t: int): int { t - t % SECOND }

  predicate IsTag(tag: string) { tag != "created" && tag != "modified" }

  predicate Parses(times: map<string, Stamp>) {
    forall tag :: tag in times ==> times[tag].At?
  }

  /** A version of the time map published by then. */
  predicate Published(times: map<string, Stamp>, v: string, at: int) {
    v in times && IsTag(v) && times[v].At? && times[v].t <= at
  }

  predicate Future(times: map<string, Stamp>, v: string, at: int) {
    v in times && IsTag(v) && times[v].At? && times[v].t > at
  }

  /** v is a newest version published by then; "" if there is none. */
  ghost predicate IsLatest(times: map<string, Stamp>, at: int, v: string) {
    || (v == "" && forall u :: Published(times, u, at) ==> times[u].t <= ZERO_TIME)
    || (Published(times, v, at) && times[v].t > ZERO_TIME && forall u ::
          Published(times, u, at) ==> times[u].t <= times[v].t)
  }

  function TimeOf(times: map<string, Stamp>, at: int, v: string): int {
    if Published(times, v, at) && times[v].t > ZERO_TIME then times[v].t else ZERO_TIME
  }

  predicate CreatedInTime(times: map<string, Stamp>, at: int) {
    "created" in times ==> times["created"].At? && times["created"].t <= at
  }

  /** What the warp makes of a document once the newest version is settled. */
  function Outcome(d: Doc, at: int, latest: string): Option<Doc> {
    if d.times.None? || !Parses(d.times.value) || !CreatedInTime(d.times.value, at) || d.versions.None? then None
    else
      var times, versions := d.times.value, d.versions.value;
      var here := latest in versions;
      if here && versions[latest].NotAnObject? then None
      else
        Some(Doc(
               Some(KeptTimes(times, at)["modified" := At(Truncated(TimeOf(times, at, latest)))]),
               Some(KeptVersions(times, versions, at, latest)),
               if here then versions[latest].repository else Null,
               if here && versions[latest].description.Text? then versions[latest].description else Text(""),
               Text(latest)))
  }

  function KeptTimes(times: map<string, Stamp>, at: int): map<string, Stamp> {
    map tag | tag in times && !Future(times, tag, at) :: times[tag]
  }

  function KeptVersions(times: map<string, Stamp>, versions: map<string, Version>, at: int,
                        latest: string): map<string, Version> {
    map v | v in versions && (v == latest || !Future(times, v, at)) :: versions[v]
  }

  /** The results the warp can have: a newest version among equals is picked by the order
      of ranging over a map. */
  ghost predicate Warps(d: Doc, at: int, r: Option<Doc>) {
    if d.times.None? then r == None
    else exists latest :: IsLatest(d.times.value, at, latest) && r == Outcome(d, at, latest)
  }

  // ----- the source's procedure -----

  class NpmDocument {
    var times: Option<map<string, Stamp>>
    var versions: Option<map<string, Version>>
    var repository: Json
    var description: Json
    var distTags: Json

    ghost function View(): Doc
      reads this
    {
      Doc(times, versions, repository, description, distTags)
    }

    constructor (d: Doc)
      ensures View() == d
    {
      times, versions, repository, description, distTags := d.times, d.versions, d.repository, d.description,
          d.distTags;
    }

    /** The loop over the time map, in any order: the later versions and a newest one of the others. */
    method ScanTimes(times: map<string, Stamp>, at: int) returns (ok: bool, future: set<string>, latest: string,
                                                                  latestTime: int)
      ensures ok <==> Parses(times) && CreatedInTime(times, at)
      ensures ok ==> forall v :: v in future <==> Future(times, v, at)
      ensures ok ==> IsLatest(times, at, latest) && latestTime == TimeOf(times, at, latest)
    {
      future, latest, latestTime := {}, "", ZERO_TIME;
      var rest := times.Keys;
      while rest != {}
        invariant rest <= times.Keys
        invariant forall tag :: tag in times && tag !in rest ==> times[tag].At?
        invariant "created" in times && "created" !in rest ==> times["created"].t <= at
        invariant forall v :: v in future <==> Future(times, v, at) && v !in rest
        invariant forall u :: Published(times, u, at) && u !in rest ==> times[u].t <= latestTime
        invariant if latestTime == ZERO_TIME then latest == ""
                  else latestTime > ZERO_TIME && Published(times, latest, at) && latest !in rest
                       && times[latest].t == latestTime
      {
        var tag :| tag in rest;
        rest := rest - {tag};
        if times[tag].Unparseable? { return false, future, latest, latestTime; }
        var t := times[tag].t;
        if tag == "created" {
          if t > at { return false, future, latest, latestTime; }
        } else if tag != "modified" {
          if t > at {
            future := future + {tag};
          } else if t > latestTime {
            latest, latestTime := tag, t;
          }
        }
      }
      ok := true;
    }

    /** The loop over the versions, deleting while ranging. */
    method ScanVersions(versions: map<string, Version>, future: set<string>, latest: string)
      returns (ok: bool, kept: map<string, Version>, repository: Json, description: Json)
      ensures ok <==> !(latest in versions && versions[latest].NotAnObject?)
      ensures ok ==> kept == map v | v in versions && (v == latest || v !in future) :: versions[v]
      ensures ok ==> repository == if latest in versions then versions[latest].repository else Null
      ensures ok ==> description == if latest in versions && versions[latest].description.Text?
                     then versions[latest].description else Text("")
    {
      kept, repository, description := versions, Null, Text("");
      var rest := versions.Keys;
      while rest != {}
        invariant rest <= versions.Keys
        invariant kept == map v | v in versions && (v in rest || v == latest || v !in future) :: versions[v]
        invariant latest in versions && latest !in rest ==> versions[latest].Version?
                                                            && repository == versions[latest].repository
        invariant latest in versions && latest !in rest ==>
                    description == if versions[latest].description.Text? then versions[latest].description else Text("")
        invariant !(latest in versions && latest !in rest) ==> repository == Null && description == Text("")
      {
        var v :| v in rest;
        rest := rest - {v};
        if v == latest {
          if versions[v].NotAnObject? { return false, kept, repository, description; }
          repository := versions[v].repository;
          if versions[v].description.Text? { description := versions[v].description; }
        } else if v in future {
          kept := kept - {v};
        }
      }
      ok := true;
    }

    /** timeWarpNPMPackageRequest. On an error the half-edited document is dropped by the caller. */
    method Warp(at: int) returns (ok: bool)
      modifies this
      ensures Warps(old(View()), at, if ok then Some(View()) else None)
    {
      ghost var d := View();
      if times.None? { return false; }
      var scanned, future, latest, latestTime := ScanTimes(times.value, at);
      if !scanned {
        SomeLatest(times.value, at);
        return false;
      }
      var stamps := times.value;
      times := Some((map tag | tag in stamps && tag !in future :: stamps[tag])
                    ["modified" := At(Truncated(latestTime))]);
      if versions.None? {
        assert Outcome(d, at, latest) == None;
        return false;
      }
      var all := versions.value;
      var kept;
      ok, kept, repository, description := ScanVersions(all, future, latest);
      if !ok {
        assert Outcome(d, at, latest) == None;
        return;
      }
      versions := Some(kept);
      distTags := Text(latest);
      assert (map tag | tag in stamps && tag !in future :: stamps[tag]) == KeptTimes(stamps, at);
      assert kept == KeptVersions(stamps, all, at, latest);
      assert Outcome(d, at, latest) == Some(View());
    }
  }

  /** There always is a newest version, or none at all. */
  lemma SomeLatest(times: map<string, Stamp>, at: int)
    ensures exists v :: IsLatest(times, at, v)
  {
    var v := NewestOf(times, at, times.Keys);
    assert IsLatest(times, at, v);
  }

  lemma {:induction false} NewestOf(times: map<string, Stamp>, at: int, among: set<string>) returns (v: string)
    requires among <= times.Keys
    ensures || (v == "" && forall u :: Published(times, u, at) && u in among ==> times[u].t <= ZERO_TIME)
            || (Published(times, v, at) && v in among && times[v].t > ZERO_TIME
                && forall u :: Published(times, u, at) && u in among ==> times[u].t <= times[v].t)
    decreases among
  {
    if among == {} {
      v := "";
    } else {
      var x :| x in among;
      v := NewestOf(times, at, among - {x});
      var best := if v in among - {x} && Published(times, v, at) && times[v].t > ZERO_TIME then times[v].t
                  else ZERO_TIME;
      if Published(times, x, at) && times[x].t > best { v := x; }
    }
  }

  // ----- what the warp promises -----

  /** No two versions share a publication time. */
  ghost predicate DistinctTimes(times: map<string, Stamp>) {
    forall u, v :: u in times && v in times && IsTag(u) && IsTag(v) && u != v && times[u].At? && times[v].At? ==>
                   times[u].t != times[v].t
  }

  ghost predicate WellFormed(d: Doc) {
    && (d.times.Some? ==> DistinctTimes(d.times.value) && "" !in d.times.value)
    && (d.versions.Some? ==> "" !in d.versions.value)
  }

  lemma LatestIsUnique(times: map<string, Stamp>, at: int, u: string, v: string)
    requires DistinctTimes(times) && "" !in times && IsLatest(times, at, u) && IsLatest(times, at, v)
    ensures u == v
  {
  }

  /** The warped document: latest is the newest version not after `at`; exactly the
      versions known to be later are gone, and the others keep their times and contents. */
  lemma WarpMeaning(d: Doc, at: int, d': Doc, v: string)
    requires WellFormed(d) && Warps(d, at, Some(d'))
    ensures d'.distTags.Text? && IsLatest(d.times.value, at, d'.distTags.s)
    ensures IsTag(v) ==> (v in d'.times.value <==> v in d.times.value && !Future(d.times.value, v, at))
    ensures IsTag(v) && v in d'.times.value ==> d'.times.value[v] == d.times.value[v]
    ensures "modified" in d'.times.value
            && d'.times.value["modified"] == At(Truncated(TimeOf(d.times.value, at, d'.distTags.s)))
    ensures v in d'.versions.value <==> v in d.versions.value && !Future(d.times.value, v, at)
    ensures v in d'.versions.value ==> d'.versions.value[v] == d.versions.value[v]
    ensures var times, latest := d.times.value, d'.distTags.s;
            && (latest != "" ==> latest in times && latest != "created" && latest != "modified"
                                 && 0 < times[latest].t <= at)
            && forall u :: u in times && u != "created" && u != "modified" && 0 < times[u].t <= at ==>
                 latest != "" && times[u].t <= times[latest].t
    ensures var later := v in d.times.value && v != "created" && v != "modified" && d.times.value[v].t > at;
            && (v in d'.versions.value <==> v in d.versions.value && !later)
            && (v != "modified" ==> (v in d'.times.value <==> v in d.times.value && !later))
    ensures var latest := d'.distTags.s;
            if latest in d.versions.value then
              && d.versions.value[latest].Version? && d'.repository == d.versions.value[latest].repository
              && d'.description == (if d.versions.value[latest].description.Text?
                                    then d.versions.value[latest].description
                                    else Text(""))
            else d'.repository == Null && d'.description == Text("")
  {
  }

  /** When it fails: no time map, a time that does not parse, a creation after the date, no
      versions, or a newest version that is listed as something other than an object. */
  lemma WarpFailsIff(d: Doc, at: int)
    requires WellFormed(d)
    ensures (exists d' :: Warps(d, at, Some(d'))) <==>
              && d.times.Some? && d.versions.Some?
              && (forall tag :: tag in d.times.value ==> d.times.value[tag].At?)
              && ("created" in d.times.value ==> d.times.value["created"].t <= at)
              && forall latest :: IsLatest(d.times.value, at, latest) && latest in d.versions.value ==>
                   d.versions.value[latest].Version?
  {
    if d.times.Some? {
      SomeLatest(d.times.value, at);
      var latest :| IsLatest(d.times.value, at, latest);
      forall other | IsLatest(d.times.value, at, other) ensures other == latest {
        LatestIsUnique(d.times.value, at, other, latest);
      }
      var r := Outcome(d, at, latest);
      assert Warps(d, at, r);
    }
  }

  /** An earlier date sees the same newest version after a warp to a later one. */
  lemma LatestSurvives(d: Doc, t2: int, latest2: string, t1: int, latest1: string)
    requires WellFormed(d) && d.times.Some? && t1 <= t2
    requires IsLatest(d.times.value, t1, latest1)
    requires Outcome(d, t2, latest2).Some?
    ensures IsLatest(Outcome(d, t2, latest2).value.times.value, t1, latest1)
    ensures DistinctTimes(Outcome(d, t2, latest2).value.times.value) && "" !in Outcome(d, t2, latest2).value.times.value
  {
    var times := d.times.value;
    var times2 := Outcome(d, t2, latest2).value.times.value;
    forall v ensures Published(times2, v, t1) <==> Published(times, v, t1) {}
    forall v | v in times2 && IsTag(v) ensures v in times && times2[v] == times[v] {}
  }

  lemma OutcomeComposes(d: Doc, t1: int, latest1: string, t2: int, latest2: string)
    requires WellFormed(d) && d.times.Some? && t1 <= t2
    requires IsLatest(d.times.value, t1, latest1) && IsLatest(d.times.value, t2, latest2)
    requires Outcome(d, t2, latest2).Some?
    ensures Outcome(Outcome(d, t2, latest2).value, t1, latest1) == Outcome(d, t1, latest1)
  {
    var times, versions := d.times.value, d.versions.value;
    var modified := At(Truncated(TimeOf(times, t2, latest2)));
    var times2 := KeptTimes(times, t2)["modified" := modified];
    var versions2 := KeptVersions(times, versions, t2, latest2);
    assert !Future(times, latest1, t2) && !Future(times, latest2, t2);
    TimesCompose(times, t1, t2, modified, At(Truncated(TimeOf(times, t1, latest1))), latest1);
    VersionsCompose(times, versions, t1, latest1, t2, latest2, times2);
    hide KeptTimes, KeptVersions, Parses, CreatedInTime, TimeOf, IsLatest, Published, Future;
  }

  lemma TimesCompose(times: map<string, Stamp>, t1: int, t2: int, modified: Stamp, final: Stamp, latest1: string)
    requires t1 <= t2 && Parses(times) && modified.At?
    ensures var times2 := KeptTimes(times, t2)["modified" := modified];
            && Parses(times2)
            && (CreatedInTime(times2, t1) <==> CreatedInTime(times, t1))
            && TimeOf(times2, t1, latest1) == TimeOf(times, t1, latest1)
            && KeptTimes(times2, t1)["modified" := final] == KeptTimes(times, t1)["modified" := final]
            && forall v :: Future(times2, v, t1) <==> Future(times, v, t1) && !Future(times, v, t2)
  {
    var times2 := KeptTimes(times, t2)["modified" := modified];
    forall v | IsTag(v) ensures v in times2 <==> v in times && !Future(times, v, t2) {}
    assert KeptTimes(times2, t1)["modified" := final] == KeptTimes(times, t1)["modified" := final];
  }

  lemma VersionsCompose(times: map<string, Stamp>, versions: map<string, Version>, t1: int, latest1: string, t2: int,
                        latest2: string,
                        times2: map<string, Stamp>)
    requires forall v :: Future(times2, v, t1) <==> Future(times, v, t1) && !Future(times, v, t2)
    requires !Future(times, latest1, t2) && !Future(times, latest2, t2) && t1 <= t2
    ensures var versions2 := KeptVersions(times, versions, t2, latest2);
            && (latest1 in versions2 <==> latest1 in versions)
            && (latest1 in versions ==> versions2[latest1] == versions[latest1])
            && KeptVersions(times2, versions2, t1, latest1) == KeptVersions(times, versions, t1, latest1)
  {
    hide IsTag;
  }

  /** Time travel composes: going back to t2 and from there to t1 is going back to t1. */
  lemma WarpComposes(d: Doc, t1: int, t2: int, d2: Doc, r: Option<Doc>, s: Option<Doc>)
    requires WellFormed(d) && t1 <= t2
    requires Warps(d, t2, Some(d2)) && Warps(d2, t1, r) && Warps(d, t1, s)
    ensures r == s
  {
    var latest2 :| IsLatest(d.times.value, t2, latest2) && Some(d2) == Outcome(d, t2, latest2);
    var latest1 :| IsLatest(d.times.value, t1, latest1) && s == Outcome(d, t1, latest1);
    var again :| IsLatest(d2.times.value, t1, again) && r == Outcome(d2, t1, again);
    LatestSurvives(d, t2, latest2, t1, latest1);
    LatestIsUnique(d2.times.value, t1, latest1, again);
    OutcomeComposes(d, t1, latest1, t2, latest2);
  }

  /** Warping to the same date twice changes nothing, and always succeeds. */
  lemma WarpIsIdempotent(d: Doc, at: int, d': Doc, r: Option<Doc>)
    requires WellFormed(d) && Warps(d, at, Some(d')) && Warps(d', at, r)
    ensures r == Some(d')
  {
    WarpComposes(d, at, at, d', r, Some(d'));
  }

  /** A document that can be warped to t1 can be warped to the later t2 if and only if the
      version that is newest at t2 is not listed as something other than an object. */
  lemma LaterWarpFailsIff(d: Doc, t1: int, t2: int, d1: Doc, latest2: string)
    requires t1 <= t2 && Warps(d, t1, Some(d1)) && IsLatest(d.times.value, t2, latest2)
    ensures Outcome(d, t2, latest2).Some? <==> !(latest2 in d.versions.value && d.versions.value[latest2].NotAnObject?)
  {
  }

  /** One such document: its second version is listed as null, so it can be warped to the
      date of its first and not to that of its second. */
  lemma LaterWarpCanFail() returns (d: Doc, t1: int, t2: int, d1: Doc)
    ensures WellFormed(d) && t1 <= t2
    ensures Warps(d, t1, Some(d1)) && Warps(d, t2, None) && !exists d2 :: Warps(d, t2, Some(d2))
  {
    t1, t2 := SECOND, 2 * SECOND;
    var times := map["1.0.0" := At(t1), "2.0.0" := At(t2)];
    var versions := map["1.0.0" := Version(Null, Null, 0), "2.0.0" := NotAnObject];
    d := Doc(Some(times), Some(versions), Null, Null, Null);
    assert Published(times, "1.0.0", t1) && Published(times, "2.0.0", t2);
    assert IsLatest(times, t1, "1.0.0") && IsLatest(times, t2, "2.0.0");
    d1 := Outcome(d, t1, "1.0.0").value;
    assert Outcome(d, t2, "2.0.0") == None;
    forall latest | IsLatest(times, t2, latest) ensures latest == "2.0.0" {
      LatestIsUnique(times, t2, latest, "2.0.0");
    }
  }
}
