/** Approximate ordering of version strings (internal/versionx/versionx.go:64-106). */
module Versionx {
  import opened Orders
  import opened Semvers
  import opened Options
  import opened Texts

  // ----- segments: the matches of \d+|[a-zA-Z]+ -----

  predicate Same(c: char, d: char) {
    (IsDigit(c) && IsDigit(d)) || (IsLetter(c) && IsLetter(d))
  }

  /** Length of the run of characters of the kind of c at the start of s. */
  function RunLength(s: string, c: char): (n: nat)
    ensures n <= |s|
  {
    if s == "" || !Same(s[0], c) then 0 else 1 + RunLength(s[1..], c)
  }

  function Segments(s: string): seq<string> {
    if s == "" then []
    else if !Same(s[0], s[0]) then Segments(s[1..])
    else
      var n := RunLength(s, s[0]);
      [s[..n]] + Segments(s[n..])
  }

  /** strconv.Atoi succeeds. */
  predicate IsNumber(s: string) {
    s != "" && AllDigits(s) && Value(s) <= MAX_INT
  }

  /** A number past int64 counts as text; numbers come after text. */
  function CompareSegment(a: string, b: string): int {
    if IsNumber(a) && IsNumber(b) then CompareInt(Value(a), Value(b))
    else if IsNumber(a) then 1
    else if IsNumber(b) then -1
    else CompareString(a, b)
  }

  function CompareLoose(a: string, b: string): int {
    Lex(CompareSegment, Segments(a), Segments(b))
  }

  function ApproxCompare(a: string, b: string): int {
    var av, bv := New(a), New(b);
    if av.Some? && bv.Some? then Compare(av.value, bv.value) else CompareLoose(a, b)
  }

  // ----- total preorders -----

  lemma SegmentsAreOrdered()
    ensures TotalPreorder(CompareSegment)
  {
    StringsAreOrdered();
    hide CompareString;
    forall x, y, z | CompareSegment(x, y) <= 0 && CompareSegment(y, z) <= 0 ensures CompareSegment(x, z) <= 0 {
      hide IsNumber;
    }
  }

  function LexSegments(a: seq<string>, b: seq<string>): int { Lex(CompareSegment, a, b) }

  lemma LooseIsOrdered()
    ensures TotalPreorder(CompareLoose)
  {
    hide TotalPreorder;
    SegmentsAreOrdered();
    LexOrders(CompareSegment, LexSegments);
    KeyOrders(Segments, LexSegments, CompareLoose);
  }

  /** A total preorder among the strings that satisfy p. */
  ghost predicate OrderedOn(c: (string, string) -> int, p: string -> bool) {
    && (forall a, b :: p(a) && p(b) ==> -1 <= c(a, b) <= 1 && c(a, b) == -c(b, a))
    && (forall x, y, z :: p(x) && p(y) && p(z) && c(x, y) <= 0 && c(y, z) <= 0 ==> c(x, z) <= 0)
  }

  predicate IsSemver(s: string) { New(s).Some? }
  predicate NotSemver(s: string) { New(s).None? }

  /** Among semantic versions, and among the other strings, ApproxCompare is a total preorder. */
  lemma ApproxIsOrderedApart()
    ensures OrderedOn(ApproxCompare, IsSemver)
    ensures OrderedOn(ApproxCompare, NotSemver)
  {
    SemversAreOrdered();
    LooseIsOrdered();
    hide New, Compare, CompareLoose;
  }

  // ----- where the two orders meet -----

  /** Three numbers within int64, joined by dots: no "v", no prerelease, no build. */
  ghost predicate PlainRelease(s: string) {
    var parts := SplitDots(s);
    && |parts| == 3
    && (forall i :: 0 <= i < 3 ==> NumericIdentifier(parts[i]) && IsNumber(parts[i]))
  }

  ghost predicate DigitsAndDots(s: string) {
    forall i :: 0 <= i < |s| ==> IsDigit(s[i]) || s[i] == '.'
  }

  lemma {:induction false} PartsOfDigits(s: string)
    requires forall i :: 0 <= i < |SplitDots(s)| ==> AllDigits(SplitDots(s)[i])
    ensures DigitsAndDots(s)
  {
    if s != "" {
      var rest := SplitDots(s[1..]);
      var parts := SplitDots(s);
      if s[0] != '.' {
        assert parts[0] == [s[0]] + rest[0];
        assert IsDigit(parts[0][0]);
        assert forall k :: 0 <= k < |rest[0]| ==> parts[0][k + 1] == rest[0][k];
        assert AllDigits(rest[0]);
      } else {
        assert parts[1] == rest[0];
      }
      assert forall i :: 1 <= i < |rest| ==> parts[i + |parts| - |rest|] == rest[i];
      PartsOfDigits(s[1..]);
    }
  }

  lemma {:induction false} CutAbsent(s: string, c: char)
    requires c !in s
    ensures Cut(s, c) == (s, None)
  {
    if s != "" {
      CutAbsent(s[1..], c);
      assert [s[0]] + s[1..] == s;
    }
  }

  lemma PlainIsSemver(s: string)
    requires PlainRelease(s)
    ensures var n := SplitDots(s); New(s) == Some(Semver(Value(n[0]), Value(n[1]), Value(n[2]), "", ""))
  {
    PartsOfDigits(s);
    assert s != "" && s[0] != 'v';
    CutAbsent(s, '+');
    CutAbsent(s, '-');
  }

  lemma {:induction false} RunOfDigits(w: string, rest: string, c: char)
    requires AllDigits(w) && IsDigit(c) && (rest == "" || !IsDigit(rest[0]))
    ensures RunLength(w + rest, c) == |w|
  {
    if w == "" {
      assert w + rest == rest;
    } else {
      assert (w + rest)[1..] == w[1..] + rest;
      RunOfDigits(w[1..], rest, c);
    }
  }

  lemma DigitsFirst(w: string, rest: string)
    requires w != "" && AllDigits(w) && (rest == "" || !IsDigit(rest[0]))
    ensures Segments(w + rest) == [w] + Segments(rest)
  {
    RunOfDigits(w, rest, w[0]);
    assert (w + rest)[..|w|] == w && (w + rest)[|w|..] == rest;
  }

  /** A number, a separator, and anything. */
  lemma NumberThen(w: string, c: char, rest: string)
    requires w != "" && AllDigits(w) && !IsDigit(c) && !IsLetter(c)
    ensures Segments(w + [c] + rest) == [w] + Segments(rest)
  {
    hide RunLength;
    DigitsFirst(w, [c] + rest);
    assert w + ([c] + rest) == w + [c] + rest;
    assert ([c] + rest)[1..] == rest;
  }

  /** Text whose parts are all numbers falls into those parts. */
  lemma {:induction false} SegmentsAreParts(s: string)
    requires forall i :: 0 <= i < |SplitDots(s)| ==> SplitDots(s)[i] != "" && AllDigits(SplitDots(s)[i])
    ensures Segments(s) == SplitDots(s)
    decreases |s|
  {
    var parts := SplitDots(s);
    var w := parts[0];
    FirstPart(s);
    if |parts| == 1 {
      DigitsFirst(w, "");
      assert w + "" == w;
    } else {
      var rest := s[|w| + 1..];
      assert s == w + "." + rest;
      forall i | 0 <= i < |SplitDots(rest)| ensures SplitDots(rest)[i] != "" && AllDigits(SplitDots(rest)[i]) {
        assert SplitDots(rest)[i] == parts[i + 1];
      }
      hide Segments, SplitDots;
      NumberThen(w, '.', rest);
      SegmentsAreParts(rest);
      assert parts == [w] + parts[1..];
    }
  }

  /** The first part, the dot after it, and the parts of what is left. */
  lemma {:induction false} FirstPart(s: string)
    ensures var w := SplitDots(s)[0];
            && |w| <= |s| && s[..|w|] == w
            && (if |SplitDots(s)| == 1 then w == s
                else |w| < |s| && s[|w|] == '.' && SplitDots(s)[1..] == SplitDots(s[|w| + 1..]))
  {
    if s != "" && s[0] != '.' {
      FirstPart(s[1..]);
      var v := SplitDots(s[1..])[0];
      assert s == [s[0]] + s[1..];
      assert s[..|v| + 1] == [s[0]] + s[1..][..|v|];
      if |v| < |s[1..]| { assert s[1..][|v| + 1..] == s[|v| + 2..]; }
    }
  }

  /** Among plain releases the semantic and the segment-wise order are the same. */
  lemma PlainReleasesAgree(a: string, b: string)
    requires PlainRelease(a) && PlainRelease(b)
    ensures ApproxCompare(a, b) == CompareLoose(a, b)
  {
    PlainIsSemver(a);
    PlainIsSemver(b);
    SegmentsAreParts(a);
    SegmentsAreParts(b);
    var x, y := SplitDots(a), SplitDots(b);
    ThreeNumbers(x, y);
  }

  lemma ThreeNumbers(x: seq<string>, y: seq<string>)
    requires |x| == |y| == 3
    requires IsNumber(x[0]) && IsNumber(x[1]) && IsNumber(x[2]) && IsNumber(y[0]) && IsNumber(y[1]) && IsNumber(y[2])
    ensures Lex(CompareSegment, x, y) ==
      Then(CompareInt(Value(x[0]), Value(y[0])), Then(CompareInt(Value(x[1]), Value(y[1])),
                                                      CompareInt(Value(x[2]), Value(y[2]))))
  {
    NumberFirst(x, y);
    NumberFirst(x[1..], y[1..]);
    NumberFirst(x[2..], y[2..]);
    assert x[1..][1..] == x[2..] && y[1..][1..] == y[2..] && x[2..][1..] == [] && y[2..][1..] == [];
    hide Value, CompareInt;
  }

  lemma NumberFirst(x: seq<string>, y: seq<string>)
    requires x != [] && y != [] && IsNumber(x[0]) && IsNumber(y[0])
    ensures Lex(CompareSegment, x, y) == Then(CompareInt(Value(x[0]), Value(y[0])), Lex(CompareSegment, x[1..], y[1..]))
  {
  }

  ghost predicate PlainOrNotSemver(s: string) {
    NotSemver(s) || PlainRelease(s)
  }

  /** Mixing is safe as long as the semantic versions among the strings are plain releases:
      only a prerelease, a build, a leading "v" or a number past int64 can break transitivity. */
  lemma PlainMixIsOrdered(x: string, y: string, z: string)
    requires PlainOrNotSemver(x) && PlainOrNotSemver(y) && PlainOrNotSemver(z)
    ensures ApproxCompare(x, y) == -ApproxCompare(y, x)
    ensures ApproxCompare(x, y) <= 0 && ApproxCompare(y, z) <= 0 ==> ApproxCompare(x, z) <= 0
  {
    LooseIsOrdered();
    IsLoose(x, y);
    IsLoose(y, x);
    IsLoose(y, z);
    IsLoose(x, z);
    hide ApproxCompare, CompareLoose;
  }

  lemma IsLoose(a: string, b: string)
    requires PlainOrNotSemver(a) && PlainOrNotSemver(b)
    ensures ApproxCompare(a, b) == CompareLoose(a, b)
  {
    if IsSemver(a) && IsSemver(b) { PlainReleasesAgree(a, b); }
  }

  // ----- the mix is not transitive -----

  lemma {:induction false} RunOfLetters(w: string, rest: string, c: char)
    requires (forall i :: 0 <= i < |w| ==> IsLetter(w[i])) && IsLetter(c) && (rest == "" || !IsLetter(rest[0]))
    ensures RunLength(w + rest, c) == |w|
  {
    if w == "" {
      assert w + rest == rest;
    } else {
      assert (w + rest)[1..] == w[1..] + rest;
      RunOfLetters(w[1..], rest, c);
    }
  }

  lemma LettersFirst(w: string, rest: string)
    requires w != "" && (forall i :: 0 <= i < |w| ==> IsLetter(w[i])) && (rest == "" || !IsLetter(rest[0]))
    ensures Segments(w + rest) == [w] + Segments(rest)
  {
    RunOfLetters(w, rest, w[0]);
    assert (w + rest)[..|w|] == w && (w + rest)[|w|..] == rest;
  }

  /** Three numbers, a separator, letters and a number. */
  lemma SuffixedSegments(x: string, y: string, z: string, sep: char, w: string, n: string)
    requires x != "" && y != "" && z != "" && n != "" && AllDigits(x) && AllDigits(y) && AllDigits(z) && AllDigits(n)
    requires sep == '.' || sep == '-'
    requires w != "" && forall i :: 0 <= i < |w| ==> IsLetter(w[i])
    ensures Segments(x + ['.'] + (y + ['.'] + (z + [sep] + (w + n)))) == [x, y, z, w, n]
  {
    LettersThen(w, n);
    NumberThen(z, sep, w + n);
    NumberThen(y, '.', z + [sep] + (w + n));
    NumberThen(x, '.', y + ['.'] + (z + [sep] + (w + n)));
    hide Segments;
  }

  lemma LettersThen(w: string, n: string)
    requires w != "" && (forall i :: 0 <= i < |w| ==> IsLetter(w[i])) && n != "" && AllDigits(n)
    ensures Segments(w + n) == [w, n]
  {
    DigitsFirst(n, "");
    assert n + "" == n && Segments("") == [];
    hide Segments;
    LettersFirst(w, n);
  }

  lemma ParsesOfTheCycle()
    ensures New("1.0.0") == Some(Semver(1, 0, 0, "", ""))
    ensures New("1.0.0-rc1") == Some(Semver(1, 0, 0, "rc1", ""))
    ensures New("1.0.0.post1").None?
    ensures Segments("1.0.0") == ["1", "0", "0"]
  {
    DotParts();
    SmallNumbers();
    hide SplitDots, Value, Segments, New;
    PlainIsSemver("1.0.0");
    SegmentsAreParts("1.0.0");
    assert !IsDigit("rc1"[0]);
    PrereleaseParses("1.0.0", "rc1");
    assert "1.0.0" + ['-'] + "rc1" == "1.0.0-rc1";
    FourPartsFail("1.0.0.post1");
  }

  /** A plain release followed by "-" and a single well-formed identifier. */
  lemma PrereleaseParses(core: string, pre: string)
    requires PlainRelease(core) && PrereleaseIdentifier(pre) && '.' !in pre && '+' !in pre
    ensures var n := SplitDots(core);
            New(core + ['-'] + pre) == Some(Semver(Value(n[0]), Value(n[1]), Value(n[2]), pre, ""))
  {
    var s := core + ['-'] + pre;
    PartsOfDigits(core);
    assert core != "" && s[0] == core[0] && core[0] != 'v';
    CutAbsent(s, '+');
    CutAt(core, '-', pre);
    SingleIdentifier(pre);
    hide Cut, SplitDots, Value, PrereleaseIdentifier;
  }

  /** Text of four parts is not a semantic version. */
  lemma FourPartsFail(s: string)
    requires |SplitDots(s)| == 4 && '+' !in s && '-' !in s && s != "" && s[0] != 'v'
    ensures New(s).None?
  {
    CutAbsent(s, '+');
    CutAbsent(s, '-');
    hide Cut, SplitDots, Value;
  }

  lemma SmallNumbers()
    ensures Value("0") == 0 && Value("1") == 1 && IsNumber("0") && IsNumber("1")
  {
    assert "0"[..0] == "" && "1"[..0] == "";
  }

  lemma {:induction false} CutAt(before: string, c: char, after: string)
    requires c !in before
    ensures Cut(before + [c] + after, c) == (before, Some(after))
  {
    var s := before + [c] + after;
    if before == "" {
      assert s[1..] == after;
    } else {
      CutAt(before[1..], c, after);
      assert s[1..] == before[1..] + [c] + after;
      assert [before[0]] + before[1..] == before;
    }
  }

  lemma DotParts()
    ensures SplitDots("1.0.0") == ["1", "0", "0"]
    ensures SplitDots("1.0.0.post1") == ["1", "0", "0", "post1"]
  {
    hide SplitDots;
    DottedThree("1", "0", "0");
    DottedThree("0", "0", "post1");
    assert "1" + "." + ("0" + "." + "0") == "1.0.0";
    SplitAt("1", "0" + "." + ("0" + "." + "post1"));
    assert "1" + "." + ("0" + "." + ("0" + "." + "post1")) == "1.0.0.post1";
  }

  lemma DottedThree(a: string, b: string, c: string)
    requires '.' !in a && '.' !in b && '.' !in c
    ensures SplitDots(a + "." + (b + "." + c)) == [a, b, c]
  {
    hide SplitDots;
    SingleIdentifier(c);
    SplitAt(b, c);
    SplitAt(a, b + "." + c);
  }

  lemma {:induction false} SplitAt(w: string, rest: string)
    requires '.' !in w
    ensures SplitDots(w + "." + rest) == [w] + SplitDots(rest)
  {
    var s := w + "." + rest;
    if w == "" {
      assert s[1..] == rest;
    } else {
      assert s[1..] == w[1..] + "." + rest;
      SplitAt(w[1..], rest);
      assert [w[0]] + w[1..] == w;
    }
  }

  /** Mixed, the order has a cycle: the prerelease precedes its release, the release
      precedes the post release, and the post release precedes the prerelease. */
  lemma MixedCycle()
    ensures ApproxCompare("1.0.0-rc1", "1.0.0") == -1
    ensures ApproxCompare("1.0.0", "1.0.0.post1") == -1
    ensures ApproxCompare("1.0.0.post1", "1.0.0-rc1") == -1
  {
    ParsesOfTheCycle();
    hide New, Segments;
    CycleSegments();
    LexPrefix(["1", "0", "0"], [], ["post", "1"]);
    LexPrefix(["1", "0", "0"], ["post", "1"], ["rc", "1"]);
    assert ["1", "0", "0"] + [] == ["1", "0", "0"];
    assert ["1", "0", "0"] + ["post", "1"] == ["1", "0", "0", "post", "1"];
    assert ["1", "0", "0"] + ["rc", "1"] == ["1", "0", "0", "rc", "1"];
    PostBeforeRc();
  }

  lemma CycleSegments()
    ensures Segments("1.0.0-rc1") == ["1", "0", "0", "rc", "1"]
    ensures Segments("1.0.0.post1") == ["1", "0", "0", "post", "1"]
  {
    hide Segments;
    SuffixedSegments("1", "0", "0", '-', "rc", "1");
    SuffixedSegments("1", "0", "0", '.', "post", "1");
    assert "1" + ['.'] + ("0" + ['.'] + ("0" + ['-'] + ("rc" + "1"))) == "1.0.0-rc1";
    assert "1" + ['.'] + ("0" + ['.'] + ("0" + ['.'] + ("post" + "1"))) == "1.0.0.post1";
  }

  lemma PostBeforeRc()
    ensures Lex(CompareSegment, ["post", "1"], ["rc", "1"]) == -1
  {
    assert !IsDigit("post"[0]) && !IsDigit("rc"[0]);
    assert !IsNumber("post") && !IsNumber("rc");
  }

  lemma {:induction false} LexPrefix(p: seq<string>, a: seq<string>, b: seq<string>)
    ensures Lex(CompareSegment, p + a, p + b) == Lex(CompareSegment, a, b)
  {
    if p == [] {
      assert p + a == a && p + b == b;
    } else {
      SegmentsAreOrdered();
      assert CompareSegment(p[0], p[0]) == 0;
      assert (p + a)[1..] == p[1..] + a && (p + b)[1..] == p[1..] + b;
      LexPrefix(p[1..], a, b);
    }
  }
}
