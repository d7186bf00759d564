/** Undoing jarsigner's manifest edits (pkg/stabilize/jar.go:227-306). */
module JarSignature {
  import opened ManifestText
  import opened ManifestProofs
  import opened ManifestFile

  /** jarDigestAttrs. */
  const DIGESTS: seq<string> := [
    "MD5-Digest", "SHA-1-Digest", "SHA-256-Digest", "SHA-384-Digest", "SHA-512-Digest", "SHA-Digest", "SHA1-Digest"]

  predicate NamedIn(name: string, names: seq<string>) {
    exists i :: 0 <= i < |names| && EqualFold(name, names[i])
  }

  predicate IsDigest(name: string) {
    NamedIn(name, DIGESTS)
  }

  /** Delete each name in turn. */
  function DeleteAll(s: Attrs, names: seq<string>): Attrs
    decreases |names|
  {
    if names == [] then s else DeleteAll(DeleteAttr(s, names[0]), names[1..])
  }

  /** A section worth keeping: more than a lone Name. */
  predicate Kept(s: Attrs) {
    |s| > 1 || (|s| == 1 && s[0].name != "Name")
  }

  function StripEntries(entries: seq<Attrs>): seq<Attrs> {
    if entries == [] then []
    else
      var s := DeleteAll(entries[0], DIGESTS);
      (if Kept(s) then [s] else []) + StripEntries(entries[1..])
  }

  function Strip(m: Manifest): Manifest {
    Manifest(m.main, StripEntries(m.entries))
  }

  /** stripManifestDigestSections on the file's content: unparsable content is left alone. */
  function StripText(content: string): string {
    match Parse(content)
    case Err => content
    case Ok(m) => Print(Strip(m))
  }

  lemma {:induction false} StripSnoc(entries: seq<Attrs>, s: Attrs)
    ensures StripEntries(entries + [s])
         == StripEntries(entries) + (if Kept(DeleteAll(s, DIGESTS)) then [DeleteAll(s, DIGESTS)] else [])
    decreases |entries|
  {
    hide DeleteAll, Kept;
    if entries == [] {
      assert entries + [s] == [s];
      assert StripEntries([s][1..]) == [];
    } else {
      assert (entries + [s])[1..] == entries[1..] + [s];
      StripSnoc(entries[1..], s);
    }
  }

  method DeleteDigests(sec: Section)
    requires sec.Valid()
    modifies sec
    ensures sec.Valid() && sec.View() == DeleteAll(old(sec.View()), DIGESTS)
  {
    assert DIGESTS[0..] == DIGESTS;
    for i := 0 to |DIGESTS|
      invariant sec.Valid() && DeleteAll(sec.View(), DIGESTS[i..]) == DeleteAll(old(sec.View()), DIGESTS)
    {
      assert DIGESTS[i..][1..] == DIGESTS[i + 1..];
      sec.Delete(DIGESTS[i]);
    }
  }

  method StripOne(sec: Section) returns (keep: bool)
    requires sec.Valid()
    modifies sec
    ensures sec.Valid() && sec.View() == DeleteAll(old(sec.View()), DIGESTS)
    ensures keep <==> Kept(sec.View())
  {
    DeleteDigests(sec);
    keep := |sec.names| > 1 || (|sec.names| == 1 && sec.names[0] != "Name");
  }

  lemma StripNone(entries: seq<Attrs>)
    ensures StripEntries(entries[..0]) == []
  {}

  /** The loop over the entry sections: each loses its digests, and those left with
      no more than a Name are dropped. */
  method StripSections(all: seq<Section>) returns (kept: seq<Section>)
    requires forall i :: 0 <= i < |all| ==> all[i].Valid()
    requires forall i, j :: 0 <= i < j < |all| ==> all[i] != all[j]
    modifies all
    ensures forall i :: 0 <= i < |kept| ==> kept[i] in all && kept[i].Valid()
    ensures forall i, j :: 0 <= i < j < |kept| ==> kept[i] != kept[j]
    ensures Views(kept) == StripEntries(old(Views(all)))
  {
    kept := [];
    ghost var before := Views(all);
    StripNone(before);
    hide StripEntries, DeleteAll, ViewOf;
    for k := 0 to |all|
      invariant forall i :: 0 <= i < |all| ==> all[i].Valid()
      invariant forall i :: k <= i < |all| ==> all[i].View() == before[i]
      invariant forall i :: 0 <= i < |kept| ==> kept[i] in all[..k]
      invariant forall i, j :: 0 <= i < j < |kept| ==> kept[i] != kept[j]
      invariant Views(kept) == StripEntries(before[..k])
    {
      assert before[..k + 1] == before[..k] + [before[k]];
      StripSnoc(before[..k], before[k]);
      ghost var stripped := Views(kept);
      assert all[k] !in kept;
      var keep := StripOne(all[k]);
      assert Views(kept) == stripped;
      if keep {
        kept := kept + [all[k]];
        assert Views(kept) == stripped + [all[k].View()];
      }
    }
    assert before[..|all|] == before;
  }

  method StripManifestDigestSections(content: string) returns (stripped: string)
    ensures stripped == StripText(content)
    ensures Parse(content).Err? ==> stripped == content
    ensures Parse(content).Ok? ==> stripped == Print(Strip(Parse(content).value))
  {
    hide Parse, Print, StripEntries, ViewOf;
    var manifest := ParseManifest(content);
    if manifest == null {
      return content;
    }
    var kept := StripSections(manifest.entrySections);
    manifest.entrySections := kept;
    stripped := WriteManifest(manifest);
  }

  // ----- what stripping means -----

  /** The attributes that are not digests. */
  function Without(s: Attrs, names: seq<string>): Attrs {
    if s == [] then []
    else (if NamedIn(s[0].name, names) then [] else [s[0]]) + Without(s[1..], names)
  }

  lemma {:induction false} DeleteIsWithout(s: Attrs, name: string)
    requires DistinctUpToCase(s)
    ensures DeleteAttr(s, name) == Without(s, [name])
    ensures DistinctUpToCase(DeleteAttr(s, name))
    decreases |s|
  {
    if s != [] {
      assert NamedIn(s[0].name, [name]) <==> EqualFold(s[0].name, [name][0]);
      if EqualFold(s[0].name, name) {
        forall i | 1 <= i < |s| ensures !NamedIn(s[i].name, [name]) {
          FoldTransitive(s[0].name, name, s[i].name);
        }
        WithoutNone(s[1..], [name]);
      } else {
        DeleteIsWithout(s[1..], name);
      }
      DeleteKeepsDistinct(s, name);
    }
  }

  lemma FoldTransitive(a: string, b: string, c: string)
    requires EqualFold(a, b)
    ensures EqualFold(a, c) <==> EqualFold(c, b)
  {}

  lemma {:induction false} WithoutNone(s: Attrs, names: seq<string>)
    requires forall i :: 0 <= i < |s| ==> !NamedIn(s[i].name, names)
    ensures Without(s, names) == s
    decreases |s|
  {
    if s != [] {
      WithoutNone(s[1..], names);
    }
  }

  lemma {:induction false} DeleteKeepsDistinct(s: Attrs, name: string)
    requires DistinctUpToCase(s)
    ensures DistinctUpToCase(DeleteAttr(s, name))
    ensures forall i :: 0 <= i < |DeleteAttr(s, name)| ==> DeleteAttr(s, name)[i] in s
    decreases |s|
  {
    if s != [] && !EqualFold(s[0].name, name) {
      DeleteKeepsDistinct(s[1..], name);
      var t := DeleteAttr(s[1..], name);
      forall j | 0 <= j < |t| ensures !EqualFold(s[0].name, t[j].name) {
        assert t[j] in s[1..];
      }
    }
  }

  lemma {:induction false} WithoutTwice(s: Attrs, name: string, names: seq<string>)
    ensures Without(Without(s, [name]), names) == Without(s, [name] + names)
    decreases |s|
  {
    if s != [] {
      WithoutTwice(s[1..], name, names);
      NamedInCons(s[0].name, name, names);
      var rest := Without(s[1..], [name]);
      assert ([s[0]] + rest)[1..] == rest;
      assert [] + rest == rest;
    }
  }

  lemma NamedInCons(n: string, name: string, names: seq<string>)
    ensures NamedIn(n, [name] + names) <==> NamedIn(n, [name]) || NamedIn(n, names)
  {
    var all := [name] + names;
    if i :| 0 <= i < |names| && EqualFold(n, names[i]) {
      assert all[i + 1] == names[i];
    }
    assert [name][0] == name == all[0];
  }

  /** On a section with names distinct up to case, deleting the digest names one by
      one removes exactly the digest attributes. */
  lemma {:induction false} DeleteAllIsWithout(s: Attrs, names: seq<string>)
    requires DistinctUpToCase(s)
    ensures DeleteAll(s, names) == Without(s, names)
    decreases |names|
  {
    if names == [] {
      WithoutNone(s, names);
    } else {
      DeleteIsWithout(s, names[0]);
      DeleteAllIsWithout(DeleteAttr(s, names[0]), names[1..]);
      WithoutTwice(s, names[0], names[1..]);
      assert [names[0]] + names[1..] == names;
    }
  }

  // ----- what signing does -----

  /** t is s with digest attributes added, anywhere. */
  ghost predicate AddsDigests(s: Attrs, t: Attrs)
    decreases |t|
  {
    if t == [] then s == []
    else
      || (IsDigest(t[0].name) && AddsDigests(s, t[1..]))
      || (s != [] && s[0] == t[0] && AddsDigests(s[1..], t[1..]))
  }

  /** A section signing makes for an entry that had none. */
  ghost predicate NewSection(t: Attrs) {
    AddsDigests([], t) || exists path :: AddsDigests([Attr("Name", path)], t)
  }

  /** Existing sections gain digests; new ones may appear anywhere. */
  ghost predicate SignsEntries(es: seq<Attrs>, signed: seq<Attrs>)
    decreases |signed|
  {
    if signed == [] then es == []
    else
      || (es != [] && AddsDigests(es[0], signed[0]) && SignsEntries(es[1..], signed[1..]))
      || (NewSection(signed[0]) && SignsEntries(es, signed[1..]))
  }

  ghost predicate Signs(m: Manifest, signed: Manifest) {
    signed.main == m.main && SignsEntries(m.entries, signed.entries)
  }

  predicate CleanSection(s: Attrs) {
    Kept(s) && forall i :: 0 <= i < |s| ==> !IsDigest(s[i].name)
  }

  /** No entry section with a digest attribute, none that is empty or a lone Name. */
  predicate Clean(m: Manifest) {
    forall i :: 0 <= i < |m.entries| ==> CleanSection(m.entries[i])
  }

  lemma {:induction false} WithoutIsFree(t: Attrs)
    ensures forall i :: 0 <= i < |Without(t, DIGESTS)| ==> !IsDigest(Without(t, DIGESTS)[i].name)
    ensures AddsDigests(Without(t, DIGESTS), t)
    decreases |t|
  {
    if t != [] {
      WithoutIsFree(t[1..]);
      if !IsDigest(t[0].name) {
        assert Without(t, DIGESTS)[1..] == Without(t[1..], DIGESTS);
      } else {
        assert Without(t, DIGESTS) == Without(t[1..], DIGESTS);
      }
    }
  }

  lemma {:induction false} AddedIsRemoved(s: Attrs, t: Attrs)
    requires AddsDigests(s, t) && forall i :: 0 <= i < |s| ==> !IsDigest(s[i].name)
    ensures Without(t, DIGESTS) == s
    decreases |t|
  {
    if t != [] {
      if IsDigest(t[0].name) {
        AddedIsRemoved(s, t[1..]);
      } else {
        AddedIsRemoved(s[1..], t[1..]);
        assert s == [s[0]] + s[1..];
      }
    }
  }

  lemma NameIsNoDigest(path: string)
    ensures !IsDigest("Name")
    ensures forall t :: AddsDigests([Attr("Name", path)], t) ==> Without(t, DIGESTS) == [Attr("Name", path)]
  {
    forall t | AddsDigests([Attr("Name", path)], t) ensures Without(t, DIGESTS) == [Attr("Name", path)] {
      AddedIsRemoved([Attr("Name", path)], t);
    }
  }

  lemma NewIsDropped(t: Attrs)
    ensures NewSection(t) <==> Without(t, DIGESTS) == [] || exists path :: Without(t, DIGESTS) == [Attr("Name", path)]
  {
    WithoutIsFree(t);
    if AddsDigests([], t) {
      AddedIsRemoved([], t);
    }
    if path :| AddsDigests([Attr("Name", path)], t) {
      NameIsNoDigest(path);
    }
  }

  ghost predicate DistinctEntries(entries: seq<Attrs>) {
    forall i :: 0 <= i < |entries| ==> DistinctUpToCase(entries[i])
  }

  lemma {:induction false} StrippedIsClean(entries: seq<Attrs>)
    requires DistinctEntries(entries)
    ensures forall i :: 0 <= i < |StripEntries(entries)| ==> CleanSection(StripEntries(entries)[i])
    decreases |entries|
  {
    if entries != [] {
      DeleteAllIsWithout(entries[0], DIGESTS);
      WithoutIsFree(entries[0]);
      StrippedIsClean(entries[1..]);
    }
  }

  /** One signed section, whichever way it came about. */
  lemma StripFirst(signed: seq<Attrs>)
    requires signed != [] && DistinctEntries(signed)
    ensures NewSection(signed[0]) <==> !Kept(Without(signed[0], DIGESTS))
    ensures StripEntries(signed) ==
            (if NewSection(signed[0]) then [] else [Without(signed[0], DIGESTS)]) + StripEntries(signed[1..])
  {
    DeleteAllIsWithout(signed[0], DIGESTS);
    NewIsDropped(signed[0]);
    KeptIff(Without(signed[0], DIGESTS));
    hide DeleteAll, Without, AddsDigests, NewSection, Kept;
  }

  lemma KeptIff(s: Attrs)
    ensures !Kept(s) <==> s == [] || exists path :: s == [Attr("Name", path)]
  {
    if !Kept(s) && s != [] {
      assert s == [Attr("Name", s[0].value)];
    }
  }

  lemma {:induction false} StripEntriesIff(es: seq<Attrs>, signed: seq<Attrs>)
    requires DistinctEntries(signed) && forall i :: 0 <= i < |es| ==> CleanSection(es[i])
    ensures StripEntries(signed) == es <==> SignsEntries(es, signed)
    decreases |signed|
  {
    hide DeleteAll, Without, AddsDigests, NewSection;
    if signed != [] {
      StripFirst(signed);
      var s := Without(signed[0], DIGESTS);
      WithoutIsFree(signed[0]);
      StripEntriesIff(es, signed[1..]);
      if es != [] {
        StripEntriesIff(es[1..], signed[1..]);
        assert es == [es[0]] + es[1..];
        if AddsDigests(es[0], signed[0]) {
          AddedIsRemoved(es[0], signed[0]);
        }
      }
    }
  }

  /** Stripping a signed manifest gives the original back, section and attribute
      order intact, exactly when the original was clean to begin with. */
  lemma StripUndoesSigningIff(m: Manifest, signed: Manifest)
    requires GoodManifest(signed) && Signs(m, signed)
    ensures Strip(signed) == m <==> Clean(m)
  {
    DistinctOfGood(signed);
    StrippedIsClean(signed.entries);
    if Clean(m) {
      StripEntriesIff(m.entries, signed.entries);
    }
  }

  /** An original with a digest of its own: stripping its signing takes that away as well. */
  lemma UncleanIsNotRestored() returns (m: Manifest, signed: Manifest)
    ensures GoodManifest(m) && GoodManifest(signed) && Signs(m, signed) && m != signed
    ensures !Clean(m) && Strip(signed) != m
  {
    var main := [Attr("Manifest-Version", "1.0")];
    var name, own, added := Attr("Name", "a"), Attr("SHA-Digest", "x"), Attr("MD5-Digest", "y");
    m, signed := Manifest(main, [[name, own]]), Manifest(main, [[name, own, added]]);
    DigestNames();
    GoodAttrs();
    hide IsDigest, GoodSection;
    OneDigestMore(name, own, added);
    assert !CleanSection(m.entries[0]) by { assert IsDigest([name, own][1].name); }
    hide CleanSection, Signs;
    StripUndoesSigningIff(m, signed);
  }

  lemma OneDigestMore(name: Attr, own: Attr, added: Attr)
    requires IsDigest(added.name)
    ensures AddsDigests([name, own], [name, own, added])
    ensures SignsEntries([[name, own]], [[name, own, added]])
  {
    hide IsDigest;
    assert [added][1..] == [] && AddsDigests([], [added]);
    assert [own][1..] == [] && [own, added][1..] == [added] && AddsDigests([own], [own, added]);
    assert [name, own][1..] == [own] && [name, own, added][1..] == [own, added];
    assert AddsDigests([name, own], [name, own, added]);
    assert [[name, own]][1..] == [] && [[name, own, added]][1..] == [] && SignsEntries([], []);
  }

  lemma DigestNames()
    ensures IsDigest("MD5-Digest") && IsDigest("SHA-Digest")
  {
    AllSevenAreDigests();
  }

  lemma Listed(name: string, i: nat)
    requires i < |DIGESTS| && DIGESTS[i] == name
    ensures IsDigest(name)
  {
    assert EqualFold(name, DIGESTS[i]);
  }

  /** The attributes jarsigner writes for each digest algorithm, the legacy spellings included. */
  lemma AllSevenAreDigests()
    ensures IsDigest("MD5-Digest") && IsDigest("SHA-1-Digest") && IsDigest("SHA-256-Digest")
    ensures IsDigest("SHA-384-Digest") && IsDigest("SHA-512-Digest") && IsDigest("SHA-Digest")
            && IsDigest("SHA1-Digest")
    ensures |DIGESTS| == 7 && forall i :: 0 <= i < 7 ==> |DIGESTS[i]| >= 10
  {
    hide IsDigest;
    Listed("MD5-Digest", 0);
    Listed("SHA-1-Digest", 1);
    Listed("SHA-256-Digest", 2);
    Listed("SHA-384-Digest", 3);
    Listed("SHA-512-Digest", 4);
    Listed("SHA-Digest", 5);
    Listed("SHA1-Digest", 6);
  }

  lemma GoodName(n: string)
    requires n != "" && LowerChar(n[0]) != 'f' && forall i :: 0 <= i < |n| ==> NameChar(n[i])
    ensures ValidName(n)
  {
    assert |n| >= 4 ==> n[..4][0] == n[0];
    assert LowerChar("from"[0]) == 'f';
  }

  lemma ThreeAttrs(a: Attr, b: Attr, c: Attr)
    requires ValidName(a.name) && ValidName(b.name) && ValidName(c.name)
    requires Unbroken(a.value) && Unbroken(b.value) && Unbroken(c.value)
    requires !EqualFold(a.name, b.name) && !EqualFold(a.name, c.name) && !EqualFold(b.name, c.name)
    ensures GoodSection([a]) && GoodSection([a, b]) && GoodSection([a, b, c])
  {
    hide ValidName, EqualFold, Unbroken;
  }

  lemma VersionName()
    ensures ValidName("Manifest-Version") && |"Manifest-Version"| == 16 && Unbroken("1.0")
  {
    GoodName("Manifest-Version");
  }

  lemma EntryName()
    ensures ValidName("Name") && |"Name"| == 4 && Unbroken("a")
  {
    GoodName("Name");
  }

  lemma OwnName()
    ensures ValidName("SHA-Digest") && |"SHA-Digest"| == 10 && LowerChar("SHA-Digest"[0]) == 's' && Unbroken("x")
  {
    GoodName("SHA-Digest");
  }

  lemma AddedName()
    ensures ValidName("MD5-Digest") && |"MD5-Digest"| == 10 && LowerChar("MD5-Digest"[0]) == 'm' && Unbroken("y")
  {
    GoodName("MD5-Digest");
  }

  lemma GoodAttrs()
    ensures GoodSection([Attr("Manifest-Version", "1.0")])
    ensures GoodSection([Attr("Name", "a"), Attr("SHA-Digest", "x")])
    ensures GoodSection([Attr("Name", "a"), Attr("SHA-Digest", "x"), Attr("MD5-Digest", "y")])
  {
    VersionName();
    EntryName();
    OwnName();
    AddedName();
    hide GoodSection, ValidName, Unbroken, LowerChar;
    ThreeAttrs(Attr("Name", "a"), Attr("SHA-Digest", "x"), Attr("MD5-Digest", "y"));
    ThreeAttrs(Attr("Manifest-Version", "1.0"), Attr("Name", "a"), Attr("SHA-Digest", "x"));
  }

  /** Conversely, what strips to a clean manifest is a signing of it and nothing else. */
  lemma StripsToCleanIff(m: Manifest, signed: Manifest)
    requires GoodManifest(signed) && Clean(m)
    ensures Strip(signed) == m <==> Signs(m, signed)
  {
    DistinctOfGood(signed);
    StripEntriesIff(m.entries, signed.entries);
  }

  lemma DistinctOfGood(m: Manifest)
    requires GoodManifest(m)
    ensures DistinctEntries(m.entries)
  {}

  /** On the bytes of the file: signing then stripping leaves the text of the original. */
  lemma StripTextUndoesSigning(m: Manifest, signed: Manifest)
    requires GoodManifest(signed) && Signs(m, signed) && Clean(m)
    ensures StripText(Print(signed)) == Print(m)
  {
    ParsePrint(signed);
    StripUndoesSigningIff(m, signed);
  }
}
