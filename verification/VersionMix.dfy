/** Exactly which semantic versions can be mixed with plain releases and with strings of
    other schemes without breaking the order (internal/versionx/versionx.go:64-106). */
module VersionMix {
  import opened Orders
  import opened Semvers
  import opened Options
  import opened Texts
  import opened Versionx

  // ----- a semantic version in pieces -----

  datatype Pieces = Pieces(v: bool, core: string, pre: Option<string>, build: Option<string>)

  function PiecesOf(s: string): Pieces {
    var v := s != "" && s[0] == 'v';
    var (main, build) := Cut(if v then s[1..] else s, '+');
    var (core, pre) := Cut(main, '-');
    Pieces(v, core, pre, build)
  }

  function Tail(c: char, after: Option<string>): string {
    match after
    case None => ""
    case Some(t) => [c] + t
  }

  function TailSegments(after: Option<string>): seq<string> {
    match after
    case None => []
    case Some(t) => Segments(t)
  }

  lemma {:induction false} CutJoins(s: string, c: char)
    ensures s == Cut(s, c).0 + Tail(c, Cut(s, c).1)
  {
    if s != "" && s[0] != c {
      CutJoins(s[1..], c);
      assert s == [s[0]] + s[1..];
      assert [s[0]] + (Cut(s[1..], c).0 + Tail(c, Cut(s[1..], c).1)) ==
             [s[0]] + Cut(s[1..], c).0 + Tail(c, Cut(s[1..], c).1);
    }
  }

  lemma {:induction false} RunStops(a: string, c: char, b: string, k: char)
    requires !Same(c, k)
    ensures RunLength(a + [c] + b, k) == RunLength(a, k)
  {
    var s := a + [c] + b;
    if a == "" {
      assert s[0] == c;
    } else {
      assert s[0] == a[0] && s[1..] == a[1..] + [c] + b;
      RunStops(a[1..], c, b, k);
    }
  }

  /** A separator never joins segments. */
  lemma {:induction false} SegmentsSplit(a: string, c: char, b: string)
    requires !IsDigit(c) && !IsLetter(c)
    ensures Segments(a + [c] + b) == Segments(a) + Segments(b)
    decreases |a|
  {
    var s := a + [c] + b;
    if a == "" {
      assert s[0] == c && s[1..] == b;
    } else if !Same(a[0], a[0]) {
      assert s[0] == a[0] && s[1..] == a[1..] + [c] + b;
      SegmentsSplit(a[1..], c, b);
    } else {
      var n := RunLength(a, a[0]);
      RunStops(a, c, b, a[0]);
      RunIsPositive(a);
      assert s[0] == a[0] && s[..n] == a[..n] && s[n..] == a[n..] + [c] + b;
      SegmentsSplit(a[n..], c, b);
    }
  }

  lemma RunIsPositive(a: string)
    requires a != "" && Same(a[0], a[0])
    ensures RunLength(a, a[0]) > 0
  {
  }

  lemma TailSplits(a: string, c: char, after: Option<string>)
    requires !IsDigit(c) && !IsLetter(c)
    ensures Segments(a + Tail(c, after)) == Segments(a) + TailSegments(after)
  {
    match after
    case None => assert a + "" == a;
    case Some(t) =>
      SegmentsSplit(a, c, t);
      assert a + ([c] + t) == a + [c] + t;
  }

  // ----- what a semantic version consists of -----

  ghost predicate ThreeNumbersIn(core: string) {
    var n := SplitDots(core);
    |n| == 3 && NumericIdentifier(n[0]) && NumericIdentifier(n[1]) && NumericIdentifier(n[2])
  }

  lemma Parsed(s: string)
    requires IsSemver(s)
    ensures var x := PiecesOf(s);
            var n := SplitDots(x.core);
            && ThreeNumbersIn(x.core)
            && (x.pre.Some? ==> x.pre.value != "")
            && New(s) == Some(Semver(Saturated(n[0]), Saturated(n[1]), Saturated(n[2]),
                                     if x.pre.Some? then x.pre.value else "", if x.build.Some? then x.build.value
                                                                              else ""))
  {
    NeverEmptyPrerelease(s);
    hide SplitDots, Saturated;
  }

  lemma NeverEmptyPrerelease(s: string)
    requires IsSemver(s)
    ensures PiecesOf(s).pre.Some? ==> PiecesOf(s).pre.value != ""
  {
    NoEmptyPrerelease();
    hide SplitDots, PrereleaseText;
  }

  lemma NoEmptyPrerelease()
    ensures !PrereleaseText("")
  {
    assert SplitDots("") == [""];
    assert !PrereleaseIdentifier(SplitDots("")[0]);
  }

  /** Every character of a text of dotted identifiers is in one of them, or a dot. */
  lemma {:induction false} CharsOfParts(s: string, i: nat)
    requires i < |s|
    ensures s[i] == '.' || exists k :: 0 <= k < |SplitDots(s)| && s[i] in SplitDots(s)[k]
  {
    var rest, parts := SplitDots(s[1..]), SplitDots(s);
    if i > 0 {
      CharsOfParts(s[1..], i - 1);
      if s[i] != '.' {
        var k :| 0 <= k < |rest| && s[i] in rest[k];
        if s[0] == '.' { assert parts[k + 1] == rest[k]; }
        else if k > 0 { assert parts[k] == rest[k]; }
        else { assert parts[0] == [s[0]] + rest[0]; }
      }
    } else if s[0] != '.' {
      assert parts[0] == [s[0]] + rest[0];
      assert s[0] in parts[0];
    }
  }

  /** No plus sign is part of a prerelease. */
  lemma NoPlus(pre: string)
    requires PrereleaseText(pre)
    ensures '+' !in pre
  {
    forall i | 0 <= i < |pre| ensures pre[i] != '+' {
      CharsOfParts(pre, i);
      if pre[i] != '.' {
        var k :| 0 <= k < |SplitDots(pre)| && pre[i] in SplitDots(pre)[k];
        NoPlusIn(SplitDots(pre)[k]);
      }
    }
  }

  lemma NoPlusIn(p: string)
    requires PrereleaseIdentifier(p)
    ensures '+' !in p
  {
  }

  lemma CutTail(before: string, c: char, after: Option<string>)
    requires c !in before
    ensures Cut(before + Tail(c, after), c) == (before, after)
  {
    match after
    case None =>
      assert before + "" == before;
      CutAbsent(before, c);
    case Some(t) =>
      CutAt(before, c, t);
      assert before + ([c] + t) == before + [c] + t;
  }

  /** What parses, in general: three numbers without superfluous zeros joined by dots, a "v"
      before them or not, after them a prerelease of dotted identifiers, of which the numeric
      ones have no superfluous zero, or none, and a build of dotted identifiers, or none. */
  lemma PiecesParse(v: bool, core: string, pre: Option<string>, build: Option<string>)
    requires ThreeNumbersIn(core)
    requires (pre.Some? ==> PrereleaseText(pre.value)) && (build.Some? ==> BuildText(build.value))
    ensures var s := (if v then "v" else "") + (core + Tail('-', pre) + Tail('+', build));
            var n := SplitDots(core);
            && PiecesOf(s) == Pieces(v, core, pre, build)
            && New(s) == Some(Semver(Saturated(n[0]), Saturated(n[1]), Saturated(n[2]),
                                     if pre.Some? then pre.value else "", if build.Some? then build.value else ""))
  {
    var main := core + Tail('-', pre);
    var t := main + Tail('+', build);
    var s := (if v then "v" else "") + t;
    CoreSegments(core);
    PartsOfDigits(core);
    if pre.Some? { NoPlus(pre.value); }
    assert '-' !in core && '+' !in main;
    assert t[0] == core[0] && (v ==> s[0] == 'v' && s[1..] == t) && (!v ==> s == t);
    CutTail(main, '+', build);
    CutTail(core, '-', pre);
    hide Cut, SplitDots, PrereleaseText, BuildText, Saturated, Tail, NumericIdentifier;
  }

  /** And nothing else does. */
  lemma ParsesOnlyPieces(s: string)
    requires New(s).Some?
    ensures var x := PiecesOf(s);
            && s == (if x.v then "v" else "") + (x.core + Tail('-', x.pre) + Tail('+', x.build))
            && ThreeNumbersIn(x.core)
            && (x.pre.Some? ==> PrereleaseText(x.pre.value)) && (x.build.Some? ==> BuildText(x.build.value))
  {
    PiecesJoin(s);
    Parsed(s);
    hide SplitDots, PrereleaseText, BuildText, Saturated, Tail, NumericIdentifier;
  }

  lemma CoreSegments(core: string)
    requires ThreeNumbersIn(core)
    ensures Segments(core) == SplitDots(core) && core != "" && IsDigit(core[0])
  {
    SegmentsAreParts(core);
    FirstPart(core);
    assert core[..|SplitDots(core)[0]|][0] == core[0];
  }

  lemma SemverSegments(s: string)
    requires IsSemver(s)
    ensures var x := PiecesOf(s);
            Segments(s) == (if x.v then ["v"] else []) + (SplitDots(x.core) + TailSegments(x.pre)
                                                          + TailSegments(x.build))
  {
    Parsed(s);
    PiecesJoin(s);
    var x := PiecesOf(s);
    CoreSegments(x.core);
    TailSplits(x.core, '-', x.pre);
    TailSplits(x.core + Tail('-', x.pre), '+', x.build);
    hide Segments, SplitDots, PiecesOf, Tail, TailSegments, New;
    var t := x.core + Tail('-', x.pre) + Tail('+', x.build);
    if x.v {
      assert t[0] == x.core[0];
      LettersFirst("v", t);
    } else {
      assert s == t;
      assert [] + Segments(s) == Segments(s);
    }
  }

  lemma PiecesJoin(s: string)
    ensures var x := PiecesOf(s);
            s == (if x.v then "v" else "") + (x.core + Tail('-', x.pre) + Tail('+', x.build))
  {
    var t := if s != "" && s[0] == 'v' then s[1..] else s;
    CutJoins(t, '+');
    CutJoins(Cut(t, '+').0, '-');
    assert "" + t == t;
  }

  lemma EmptyIsGreatest(a: string, b: string)
    requires a == "" || b == ""
    ensures PrereleaseCmp(a, b) == CompareInt(if a == "" then 1 else 0, if b == "" then 1 else 0)
  {
  }

  // ----- the exact condition -----

  /** A version that can be added: no "v", prerelease or number past int64, and a build, if
      any, of hyphens and dots; or "v0.0.0" with a prerelease, which is smallest both ways. */
  ghost predicate MixesSafely(s: string)
    requires IsSemver(s)
  {
    Parsed(s);
    var x := PiecesOf(s);
    var n := SplitDots(x.core);
    if x.v then Value(n[0]) == 0 && Value(n[1]) == 0 && Value(n[2]) == 0 && x.pre.Some?
    else PlainRelease(x.core) && x.pre.None? && TailSegments(x.build) == []
  }

  /** s itself, or a plain release, or not a semantic version. */
  ghost predicate Beside(s: string, x: string) {
    x == s || PlainOrNotSemver(x)
  }

  /** Transitivity fails. */
  ghost predicate Breaks(x: string, y: string, z: string) {
    ApproxCompare(x, y) <= 0 && ApproxCompare(y, z) <= 0 && ApproxCompare(x, z) > 0
  }

  /** The order is total among s and all of those. */
  ghost predicate OrderedBeside(s: string) {
    && (forall x, y :: Beside(s, x) && Beside(s, y) ==> ApproxCompare(x, y) == -ApproxCompare(y, x))
    && (forall x, y, z :: Beside(s, x) && Beside(s, y) && Beside(s, z) ==> !Breaks(x, y, z))
  }

  lemma SelfCompares(s: string)
    ensures ApproxCompare(s, s) == 0 == CompareLoose(s, s)
  {
    SemversAreOrdered();
    LooseIsOrdered();
  }

  lemma SafeIsLoose(s: string, p: string)
    requires IsSemver(s) && MixesSafely(s) && PlainOrNotSemver(p)
    ensures ApproxCompare(s, p) == CompareLoose(s, p)
  {
    if IsSemver(p) {
      if PiecesOf(s).v { VersionZeroIsLoose(s, p); } else { HyphenBuildIsLoose(s, p); }
    }
  }

  lemma HyphenBuildIsLoose(s: string, p: string)
    requires IsSemver(s) && MixesSafely(s) && !PiecesOf(s).v && PlainRelease(p)
    ensures ApproxCompare(s, p) == CompareLoose(s, p)
  {
    Parsed(s);
    SemverSegments(s);
    var core := PiecesOf(s).core;
    CoreSegments(core);
    PlainIsSemver(core);
    PlainIsSemver(p);
    assert [] + (SplitDots(core) + [] + []) == SplitDots(core);
    hide Segments, SplitDots, New, PiecesOf;
    PlainReleasesAgree(core, p);
  }

  lemma VersionZeroIsLoose(s: string, p: string)
    requires IsSemver(s) && MixesSafely(s) && PiecesOf(s).v && PlainRelease(p)
    ensures ApproxCompare(s, p) == CompareLoose(s, p)
  {
    Parsed(s);
    PlainIsSemver(p);
    VersionFirst(s, p);
    EmptyIsGreatest(PiecesOf(s).pre.value, "");
    hide Segments, SplitDots, New, PiecesOf, PrereleaseCmp;
  }

  /** With a leading "v" a version is loosely before every plain release. */
  lemma VersionFirst(s: string, p: string)
    requires IsSemver(s) && PiecesOf(s).v && PlainRelease(p)
    ensures CompareLoose(s, p) == -1
  {
    SemverSegments(s);
    SegmentsAreParts(p);
    assert !IsDigit("v"[0]);
  }

  lemma SafeMixIsOrdered(s: string)
    requires IsSemver(s) && MixesSafely(s)
    ensures OrderedBeside(s)
  {
    forall x, y | Beside(s, x) && Beside(s, y) ensures ApproxCompare(x, y) == CompareLoose(x, y) {
      BesideIsLoose(s, x, y);
    }
    LooseIsOrdered();
    hide ApproxCompare, CompareLoose, Beside, MixesSafely;
  }

  lemma BesideIsLoose(s: string, x: string, y: string)
    requires IsSemver(s) && MixesSafely(s) && Beside(s, x) && Beside(s, y)
    ensures ApproxCompare(x, y) == CompareLoose(x, y)
  {
    if x == s && y == s {
      SelfCompares(s);
    } else if x == s {
      SafeIsLoose(s, y);
    } else if y == s {
      SafeIsLoose(s, x);
      ApproxFlips(s, x);
    } else {
      IsLoose(x, y);
    }
  }

  lemma ApproxFlips(x: string, y: string)
    ensures ApproxCompare(y, x) == -ApproxCompare(x, y) && CompareLoose(y, x) == -CompareLoose(x, y)
  {
    SemversAreOrdered();
    LooseIsOrdered();
    hide Compare, CompareLoose, New;
  }

  // ----- what breaks the order otherwise -----

  lemma NumberParts(x: string, y: string, z: string)
    requires NumericIdentifier(x) && NumericIdentifier(y) && NumericIdentifier(z)
    ensures SplitDots(x + "." + (y + "." + z)) == [x, y, z]
  {
    assert '.' !in x && '.' !in y && '.' !in z;
    hide SplitDots;
    DottedThree(x, y, z);
  }

  lemma PlainText(x: string, y: string, z: string)
    requires NumericIdentifier(x) && NumericIdentifier(y) && NumericIdentifier(z) && IsNumber(x) && IsNumber(y)
             && IsNumber(z)
    ensures var p := x + "." + (y + "." + z);
            PlainRelease(p) && Segments(p) == SplitDots(p) == [x, y, z]
                && New(p) == Some(Semver(Value(x), Value(y), Value(z), "", ""))
  {
    NumberParts(x, y, z);
    var p := x + "." + (y + "." + z);
    hide SplitDots, Segments, New;
    PlainIsSemver(p);
    SegmentsAreParts(p);
  }

  /** Numbers and then a letter: not a semantic version. */
  lemma LetterText(w: seq<string>)
    requires |w| <= 2 && forall i :: 0 <= i < |w| ==> NumericIdentifier(w[i])
    ensures NotSemver(Lettered(w)) && Segments(Lettered(w)) == w + ["w"]
  {
    LetterAlone();
    if |w| == 0 {
      NotThree("w");
    } else if |w| == 1 {
      assert '.' !in w[0];
      SplitAt(w[0], "w");
      NotThree(Lettered(w));
      NumberThen(w[0], '.', "w");
      assert w + ["w"] == [w[0]] + ["w"];
    } else {
      assert '.' !in w[0] && '.' !in w[1];
      DottedThree(w[0], w[1], "w");
      ThirdIsText(Lettered(w));
      NumberThen(w[1], '.', "w");
      NumberThen(w[0], '.', w[1] + ['.'] + "w");
      assert Lettered(w) == w[0] + ['.'] + (w[1] + ['.'] + "w");
      assert w + ["w"] == [w[0]] + ([w[1]] + ["w"]);
    }
  }

  function Lettered(w: seq<string>): string
    requires |w| <= 2
  {
    if |w| == 0 then "w" else if |w| == 1 then w[0] + "." + "w" else w[0] + "." + (w[1] + "." + "w")
  }

  lemma LetterAlone()
    ensures SplitDots("w") == ["w"] && Segments("w") == ["w"] && !AllDigits("w")
  {
    SingleIdentifier("w");
    LettersFirst("w", "");
    assert "w" + "" == "w" && Segments("") == [];
    assert !IsDigit("w"[0]);
  }

  lemma NotThree(s: string)
    requires |SplitDots(s)| != 3 && '+' !in s && '-' !in s && s != "" && s[0] != 'v'
    ensures NotSemver(s)
  {
    CutAbsent(s, '+');
    CutAbsent(s, '-');
    hide Cut, SplitDots, Value;
  }

  lemma ThirdIsText(s: string)
    requires |SplitDots(s)| == 3 && !AllDigits(SplitDots(s)[2]) && '+' !in s && '-' !in s && s != "" && s[0] != 'v'
    ensures NotSemver(s)
  {
    CutAbsent(s, '+');
    CutAbsent(s, '-');
    hide Cut, SplitDots, Value;
  }

  lemma ZeroRelease()
    ensures PlainRelease("0.0.0") && Segments("0.0.0") == ["0", "0", "0"]
            && New("0.0.0") == Some(Semver(0, 0, 0, "", ""))
  {
    SmallNumbers();
    PlainText("0", "0", "0");
    assert "0" + "." + ("0" + "." + "0") == "0.0.0";
  }

  lemma VBreaks(s: string)
    requires IsSemver(s) && !MixesSafely(s) && PiecesOf(s).v
    ensures PlainRelease("0.0.0") && NotSemver("w") && Breaks("0.0.0", s, "w")
  {
    ZeroRelease();
    LetterAlone();
    NotThree("w");
    VersionBeforeLetter(s);
    ZeroNotAfter(s);
    assert !IsDigit("w"[0]);
    SmallNumbers();
    hide New, SplitDots, PiecesOf, Value;
    assert CompareLoose("0.0.0", "w") == 1;
  }

  lemma VersionBeforeLetter(s: string)
    requires IsSemver(s) && PiecesOf(s).v
    ensures CompareLoose(s, "w") == -1
  {
    SemverSegments(s);
    LetterAlone();
    assert !IsDigit("v"[0]) && !IsDigit("w"[0]);
    hide SplitDots, PiecesOf, Segments;
  }

  /** Only prereleases of 0.0.0 are before it. */
  lemma ZeroNotAfter(s: string)
    requires IsSemver(s) && !MixesSafely(s) && PiecesOf(s).v
    ensures ApproxCompare("0.0.0", s) <= 0
  {
    Parsed(s);
    ZeroRelease();
    EmptyIsGreatest("", if PiecesOf(s).pre.Some? then PiecesOf(s).pre.value else "");
    hide SplitDots, New, PiecesOf, PrereleaseCmp, Segments;
  }

  /** The first number past int64. */
  function FirstLarge(n: seq<string>): (i: nat)
    requires |n| == 3 && NumericIdentifier(n[0]) && NumericIdentifier(n[1]) && NumericIdentifier(n[2])
    ensures i <= 3 && (forall k :: 0 <= k < i ==> IsNumber(n[k])) && (i < 3 ==> !IsNumber(n[i]))
  {
    if !IsNumber(n[0]) then 0 else if !IsNumber(n[1]) then 1 else if !IsNumber(n[2]) then 2 else 3
  }

  /** The plain release that has the same numbers before it and zeros from there. */
  function ZeroFrom(n: seq<string>, i: nat): string
    requires |n| == 3 && i < 3
  {
    (if i > 0 then n[0] else "0") + "." + ((if i > 1 then n[1] else "0") + "." + "0")
  }

  lemma LargeSegments(n: seq<string>, i: nat, rest: seq<string>)
    requires |n| == 3 && i < 3 && !IsNumber(n[i]) && NumericIdentifier(n[i])
    ensures Lex(CompareSegment, n + rest, n[..i] + ["w"]) == -1
  {
    var tail := n[i + 1..] + rest;
    assert n + rest == n[..i] + ([n[i]] + tail);
    LexPrefix(n[..i], [n[i]] + tail, ["w"]);
    assert !IsDigit("w"[0]) && !IsNumber("w");
    DigitBeforeLetter(n[i]);
  }

  lemma DigitBeforeLetter(d: string)
    requires d != "" && IsDigit(d[0])
    ensures CompareString(d, "w") == -1
  {
  }

  lemma ZeroFromIsGreater(n: seq<string>, i: nat)
    requires |n| == 3 && i < 3 && forall k :: 0 <= k < i ==> IsNumber(n[k])
    ensures var p := [if i > 0 then n[0] else "0", if i > 1 then n[1] else "0", "0"];
            Lex(CompareSegment, p, n[..i] + ["w"]) == 1
  {
    SmallNumbers();
    var p := [if i > 0 then n[0] else "0", if i > 1 then n[1] else "0", "0"];
    assert p == n[..i] + p[i..];
    LexPrefix(n[..i], p[i..], ["w"]);
    assert !IsDigit("w"[0]) && !IsNumber("w");
  }

  lemma LargeBreaks(s: string) returns (p: string, q: string)
    requires IsSemver(s) && !PiecesOf(s).v && !PlainRelease(PiecesOf(s).core)
    ensures PlainRelease(p) && NotSemver(q) && Breaks(p, s, q)
  {
    Parsed(s);
    var n := SplitDots(PiecesOf(s).core);
    var i := FirstLarge(n);
    assert i < 3;
    hide Segments, SplitDots, New, PiecesOf, IsNumber, NumericIdentifier;
    p, q := ZeroFrom(n, i), Lettered(n[..i]);
    ZeroText(n, i);
    LetterText(n[..i]);
    LargeBeforeLetter(s, n, i);
    LargeNotBefore(s, n, i);
  }

  lemma ZeroText(n: seq<string>, i: nat)
    requires |n| == 3 && NumericIdentifier(n[0]) && NumericIdentifier(n[1]) && NumericIdentifier(n[2])
    requires i < 3 && forall k :: 0 <= k < i ==> IsNumber(n[k])
    ensures PlainRelease(ZeroFrom(n, i)) && CompareLoose(ZeroFrom(n, i), Lettered(n[..i])) == 1
    ensures New(ZeroFrom(n, i)) ==
      Some(Semver(if i > 0 then Value(n[0]) else 0, if i > 1 then Value(n[1]) else 0, 0, "", ""))
  {
    SmallNumbers();
    var x, y := if i > 0 then n[0] else "0", if i > 1 then n[1] else "0";
    PlainText(x, y, "0");
    LetterText(n[..i]);
    ZeroFromIsGreater(n, i);
    hide Segments, SplitDots, New;
  }

  lemma LargeBeforeLetter(s: string, n: seq<string>, i: nat)
    requires IsSemver(s) && !PiecesOf(s).v && n == SplitDots(PiecesOf(s).core)
    requires ThreeNumbersIn(PiecesOf(s).core) && i < 3 && !IsNumber(n[i])
    ensures CompareLoose(s, Lettered(n[..i])) == -1
  {
    SemverSegments(s);
    var x := PiecesOf(s);
    LetterText(n[..i]);
    LargeSegments(n, i, TailSegments(x.pre) + TailSegments(x.build));
    assert Segments(s) == n + (TailSegments(x.pre) + TailSegments(x.build));
    hide Segments, SplitDots, PiecesOf;
  }

  lemma LargeNotBefore(s: string, n: seq<string>, i: nat)
    requires IsSemver(s) && n == SplitDots(PiecesOf(s).core) && ThreeNumbersIn(PiecesOf(s).core)
    requires i < 3 && !IsNumber(n[i]) && forall k :: 0 <= k < i ==> IsNumber(n[k])
    ensures ApproxCompare(ZeroFrom(n, i), s) <= 0
  {
    Parsed(s);
    ZeroText(n, i);
    LargeNumbers(n, i);
    hide Segments, SplitDots, New, PiecesOf, PrereleaseCmp, Saturated, Value, IsNumber, NumericIdentifier, ZeroFrom;
  }

  lemma LargeNumbers(n: seq<string>, i: nat)
    requires |n| == 3 && NumericIdentifier(n[0]) && NumericIdentifier(n[1]) && NumericIdentifier(n[2])
    requires i < 3 && !IsNumber(n[i]) && forall k :: 0 <= k < i ==> IsNumber(n[k])
    ensures Saturated(n[i]) == MAX_INT > Value("0") && forall k :: 0 <= k < i ==> Saturated(n[k]) == Value(n[k])
  {
    SmallNumbers();
  }

  /** The core with a dot after it: loosely the same as the core, and no semantic version. */
  lemma Dotted(core: string)
    requires PlainRelease(core)
    ensures NotSemver(core + ".") && Segments(core + ".") == Segments(core)
  {
    SegmentsSplit(core, '.', "");
    assert core + ['.'] + "" == core + "." && Segments("") == [] && Segments(core) + [] == Segments(core);
    PartsOfDigits(core);
    DotEnds(core);
    CoreSegments(core);
    var q := core + ".";
    assert '+' !in q && '-' !in q && q[0] == core[0];
    hide Segments, SplitDots;
    FourPartsFail(q);
  }

  lemma {:induction false} DotEnds(s: string)
    ensures SplitDots(s + ".") == SplitDots(s) + [""]
  {
    var t := s + ".";
    if s == "" {
      assert t == "." && t[1..] == "";
    } else {
      DotEnds(s[1..]);
      assert t[0] == s[0] && t[1..] == s[1..] + ".";
    }
  }

  lemma LongerIsNotBefore(n: seq<string>, rest: seq<string>)
    ensures Lex(CompareSegment, n, n + rest) == if rest == [] then 0 else -1
  {
    assert n + [] == n;
    LexPrefix(n, [], rest);
  }

  lemma PrereleaseBreaks(s: string)
    requires IsSemver(s) && !PiecesOf(s).v && PlainRelease(PiecesOf(s).core) && PiecesOf(s).pre.Some?
    ensures var core := PiecesOf(s).core; NotSemver(core + ".") && Breaks(core, core + ".", s)
  {
    Parsed(s);
    SemverSegments(s);
    var x := PiecesOf(s);
    Dotted(x.core);
    CoreSegments(x.core);
    PlainIsSemver(x.core);
    EmptyIsGreatest("", x.pre.value);
    LongerIsNotBefore(SplitDots(x.core), TailSegments(x.pre) + TailSegments(x.build));
    LongerIsNotBefore(SplitDots(x.core), []);
    assert [] + (SplitDots(x.core) + TailSegments(x.pre) + TailSegments(x.build)) ==
           SplitDots(x.core) + (TailSegments(x.pre) + TailSegments(x.build));
    assert SplitDots(x.core) + [] == SplitDots(x.core);
    hide Segments, SplitDots, New, PiecesOf, PrereleaseCmp;
    assert ApproxCompare(x.core, s) == 1;
  }

  lemma BuildBreaks(s: string)
    requires IsSemver(s) && !PiecesOf(s).v && PlainRelease(PiecesOf(s).core) && PiecesOf(s).pre.None?
             && TailSegments(PiecesOf(s).build) != []
    ensures var core := PiecesOf(s).core; NotSemver(core + ".") && Breaks(s, core, core + ".")
  {
    Parsed(s);
    SemverSegments(s);
    var x := PiecesOf(s);
    Dotted(x.core);
    CoreSegments(x.core);
    PlainIsSemver(x.core);
    EmptyIsGreatest("", "");
    LongerIsNotBefore(SplitDots(x.core), TailSegments(x.build));
    LongerIsNotBefore(SplitDots(x.core), []);
    ApproxFlips(s, x.core + ".");
    assert [] + (SplitDots(x.core) + [] + TailSegments(x.build)) == SplitDots(x.core) + TailSegments(x.build);
    assert SplitDots(x.core) + [] == SplitDots(x.core);
    hide Segments, SplitDots, New, PiecesOf, PrereleaseCmp;
    assert ApproxCompare(s, x.core) == 0;
  }

  lemma BreakIsNoOrder(s: string, x: string, y: string, z: string)
    requires Breaks(x, y, z) && Beside(s, x) && Beside(s, y) && Beside(s, z)
    ensures !OrderedBeside(s)
  {
  }

  /** The exact condition: a semantic version keeps the order among plain releases and
      strings of other schemes if and only if it mixes safely. */
  lemma MixIsOrderedIff(s: string)
    requires IsSemver(s)
    ensures OrderedBeside(s) <==> MixesSafely(s)
  {
    if MixesSafely(s) {
      SafeMixIsOrdered(s);
    } else if PiecesOf(s).v {
      VBreaks(s);
      BreakIsNoOrder(s, "0.0.0", s, "w");
    } else if !PlainRelease(PiecesOf(s).core) {
      var p, q := LargeBreaks(s);
      BreakIsNoOrder(s, p, s, q);
    } else {
      var core := PiecesOf(s).core;
      if PiecesOf(s).pre.Some? {
        PrereleaseBreaks(s);
        BreakIsNoOrder(s, core, core + ".", s);
      } else {
        BuildBreaks(s);
        BreakIsNoOrder(s, s, core, core + ".");
      }
    }
  }
}
