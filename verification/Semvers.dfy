/** Semantic versions and their order (internal/semver/semver.go). */
module Semvers {
  import opened Orders
  import opened Options
  import opened Texts

  const MAX_INT: int := 0x7fff_ffff_ffff_ffff

  predicate IsDigit(c: char) { '0' <= c <= '9' }
  predicate IsLetter(c: char) { 'a' <= c <= 'z' || 'A' <= c <= 'Z' }
  predicate AllDigits(s: string) { forall i :: 0 <= i < |s| ==> IsDigit(s[i]) }
  predicate NoDigits(s: string) { forall i :: 0 <= i < |s| ==> !IsDigit(s[i]) }

  /** The number a digit string denotes. */
  function Value(s: string): nat
    requires AllDigits(s)
  {
    if s == "" then 0 else 10 * Value(s[..|s| - 1]) + (s[|s| - 1] as int - '0' as int)
  }

  /** strconv.Atoi with its range error ignored: a value past int64 becomes the largest int64. */
  function Saturated(s: string): nat
    requires AllDigits(s)
  {
    if Value(s) <= MAX_INT then Value(s) else MAX_INT
  }

  /** strings.Split(s, "."). */
  function SplitDots(s: string): (parts: seq<string>)
    ensures parts != []
  {
    Split(s, '.')
  }

  // ----- the prerelease order -----

  datatype Key = Key(alpha: string, numeric: nat)

  /** Just past the last digit of p[..n], or 0 when there is none. */
  function LastDigitEnd(p: string, n: nat): (e: nat)
    requires n <= |p|
    ensures e <= n && (e > 0 ==> IsDigit(p[e - 1])) && NoDigits(p[e..n])
  {
    if n == 0 || IsDigit(p[n - 1]) then n
    else
      var e := LastDigitEnd(p, n - 1);
      assert p[e..n] == p[e..n - 1] + [p[n - 1]];
      e
  }

  /** Where the run of digits that ends at e starts. */
  function RunStart(p: string, e: nat): (b: nat)
    requires e <= |p|
    ensures b <= e && AllDigits(p[b..e]) && (b > 0 ==> !IsDigit(p[b - 1]))
  {
    if e == 0 || !IsDigit(p[e - 1]) then e
    else
      var b := RunStart(p, e - 1);
      assert p[b..e] == p[b..e - 1] + [p[e - 1]];
      b
  }

  /** prereleaseKey: the text before the last run of digits and that run's value; whatever
      follows the run is not part of the key. */
  function PrereleaseKey(p: string): Key {
    var e := LastDigitEnd(p, |p|);
    if e == 0 then Key(p, 0)
    else
      var b := RunStart(p, e);
      Key(p[..b], Saturated(p[b..e]))
  }

  function Keys(parts: seq<string>): seq<Key> {
    seq(|parts|, i requires 0 <= i < |parts| => PrereleaseKey(parts[i]))
  }

  function CompareKey(a: Key, b: Key): int {
    Then(CompareString(a.alpha, b.alpha), CompareInt(a.numeric, b.numeric))
  }

  function PrereleaseCmp(a: string, b: string): int {
    if a == "" || b == "" then -CompareString(a, b)
    else Lex(CompareKey, Keys(SplitDots(a)), Keys(SplitDots(b)))
  }

  datatype Semver = Semver(major: int, minor: int, patch: int, prerelease: string, build: string)

  function Compare(s: Semver, o: Semver): int {
    Then(CompareInt(s.major, o.major),
         Then(CompareInt(s.minor, o.minor),
              Then(CompareInt(s.patch, o.patch), PrereleaseCmp(s.prerelease, o.prerelease))))
  }

  // The parts of the comparisons, as comparisons of the whole.
  function ByAlpha(a: Key, b: Key): int { CompareString(a.alpha, b.alpha) }
  function ByNumeric(a: Key, b: Key): int { CompareInt(a.numeric, b.numeric) }
  function ByKeys(a: string, b: string): int { Lex(CompareKey, Keys(SplitDots(a)), Keys(SplitDots(b))) }
  function ByAbsence(a: string, b: string): int { CompareInt(if a == "" then 1 else 0, if b == "" then 1 else 0) }
  function ByMajor(a: Semver, b: Semver): int { CompareInt(a.major, b.major) }
  function ByMinor(a: Semver, b: Semver): int { CompareInt(a.minor, b.minor) }
  function ByPatch(a: Semver, b: Semver): int { CompareInt(a.patch, b.patch) }
  function ByPrerelease(a: Semver, b: Semver): int { PrereleaseCmp(a.prerelease, b.prerelease) }
  function FromPatch(a: Semver, b: Semver): int { Then(ByPatch(a, b), ByPrerelease(a, b)) }
  function FromMinor(a: Semver, b: Semver): int { Then(ByMinor(a, b), FromPatch(a, b)) }
  function LexKeys(a: seq<Key>, b: seq<Key>): int { Lex(CompareKey, a, b) }

  lemma KeysAreOrdered()
    ensures TotalPreorder(CompareKey)
  {
    hide TotalPreorder, CompareString, CompareInt, Then;
    StringsAreOrdered();
    IntsAreOrdered();
    KeyOrders((k: Key) => k.alpha, CompareString, ByAlpha);
    KeyOrders((k: Key) => k.numeric as int, CompareInt, ByNumeric);
    ThenOrders(ByAlpha, ByNumeric, CompareKey);
  }

  /** Absence of a prerelease is decided first. */
  lemma PrereleaseParts(a: string, b: string)
    ensures PrereleaseCmp(a, b) == Then(ByAbsence(a, b), ByKeys(a, b))
  {
    if a == "" && b == "" { SamePrerelease(a); }
  }

  lemma SamePrerelease(a: string)
    ensures ByKeys(a, a) == 0
  {
    KeysAreOrdered();
    LexSwap(CompareKey, Keys(SplitDots(a)), Keys(SplitDots(a)));
  }

  lemma PrereleasesAreOrdered()
    ensures TotalPreorder(PrereleaseCmp)
  {
    forall a, b ensures PrereleaseCmp(a, b) == Then(ByAbsence(a, b), ByKeys(a, b)) { PrereleaseParts(a, b); }
    hide TotalPreorder, CompareInt, Then, PrereleaseCmp, Keys, SplitDots, Lex;
    KeysAreOrdered();
    IntsAreOrdered();
    LexOrders(CompareKey, LexKeys);
    KeyOrders((a: string) => Keys(SplitDots(a)), LexKeys, ByKeys);
    KeyOrders((a: string) => if a == "" then 1 else 0, CompareInt, ByAbsence);
    ThenOrders(ByAbsence, ByKeys, PrereleaseCmp);
  }

  /** Semver.Compare is a total preorder on all versions, whatever their fields hold. */
  lemma SemversAreOrdered()
    ensures TotalPreorder(Compare)
  {
    hide TotalPreorder, CompareInt, Then, PrereleaseCmp;
    PrereleasesAreOrdered();
    IntsAreOrdered();
    KeyOrders((a: Semver) => a.major, CompareInt, ByMajor);
    KeyOrders((a: Semver) => a.minor, CompareInt, ByMinor);
    KeyOrders((a: Semver) => a.patch, CompareInt, ByPatch);
    KeyOrders((a: Semver) => a.prerelease, PrereleaseCmp, ByPrerelease);
    ThenOrders(ByPatch, ByPrerelease, FromPatch);
    ThenOrders(ByMinor, FromPatch, FromMinor);
    ThenOrders(ByMajor, FromMinor, Compare);
  }

  /** Of two versions with the same numbers, one without a prerelease is greater than one with. */
  lemma ReleaseIsGreatest(a: Semver, b: Semver)
    requires a.major == b.major && a.minor == b.minor && a.patch == b.patch && a.prerelease == ""
    ensures Compare(a, b) == if b.prerelease == "" then 0 else 1
  {
  }

  // ----- agreement with item 11 of Semantic Versioning 2.0.0 -----

  /** Identifiers: numeric ones by value, others in ASCII order, numeric before others. */
  function SpecIdentifier(a: string, b: string): int {
    if AllDigits(a) && AllDigits(b) then CompareInt(Value(a), Value(b))
    else if AllDigits(a) then -1
    else if AllDigits(b) then 1
    else CompareString(a, b)
  }

  function SpecPrerelease(a: string, b: string): int {
    if a == "" && b == "" then 0
    else if a == "" then 1
    else if b == "" then -1
    else Lex(SpecIdentifier, SplitDots(a), SplitDots(b))
  }

  /** Wholly numeric within int64, or without a digit. */
  predicate PlainIdentifier(p: string) {
    p != "" && (NoDigits(p) || (AllDigits(p) && Value(p) <= MAX_INT))
  }

  lemma PlainKey(p: string)
    requires PlainIdentifier(p)
    ensures PrereleaseKey(p) == if AllDigits(p) then Key("", Value(p)) else Key(p, 0)
  {
    var e := LastDigitEnd(p, |p|);
    if AllDigits(p) {
      assert IsDigit(p[|p| - 1]);
      assert e == |p|;
      var b := RunStart(p, e);
      assert b == 0;
      assert p[b..e] == p && p[..0] == "";
    }
  }

  lemma PlainAgrees(a: string, b: string)
    requires PlainIdentifier(a) && PlainIdentifier(b)
    ensures CompareKey(PrereleaseKey(a), PrereleaseKey(b)) == SpecIdentifier(a, b)
  {
    PlainKey(a);
    PlainKey(b);
    EqualStrings("", "");
  }

  lemma {:induction false} ListsAgree(a: seq<string>, b: seq<string>)
    requires forall i :: 0 <= i < |a| ==> PlainIdentifier(a[i])
    requires forall i :: 0 <= i < |b| ==> PlainIdentifier(b[i])
    ensures Lex(CompareKey, Keys(a), Keys(b)) == Lex(SpecIdentifier, a, b)
  {
    if a != [] && b != [] {
      PlainAgrees(a[0], b[0]);
      assert Keys(a)[1..] == Keys(a[1..]) && Keys(b)[1..] == Keys(b[1..]);
      ListsAgree(a[1..], b[1..]);
    }
  }

  ghost predicate PlainPrerelease(p: string) {
    p == "" || forall i :: 0 <= i < |SplitDots(p)| ==> PlainIdentifier(SplitDots(p)[i])
  }

  /** The order is the specification's wherever no identifier mixes digits with other
      characters and no number passes int64. */
  lemma AgreesWithSpecOnPlain(a: string, b: string)
    requires PlainPrerelease(a) && PlainPrerelease(b)
    ensures PrereleaseCmp(a, b) == SpecPrerelease(a, b)
  {
    if a != "" && b != "" { ListsAgree(SplitDots(a), SplitDots(b)); }
  }

  // ----- exactly where the two orders of identifiers differ -----

  /** An identifier as its key sees it: text, the last run of digits, and what follows it;
      all of it is text when it has no digit. */
  datatype Parts = Parts(alpha: string, digits: string, rest: string)

  predicate IsParts(x: Parts) {
    && AllDigits(x.digits) && NoDigits(x.rest)
    && (x.alpha != "" ==> !IsDigit(x.alpha[|x.alpha| - 1]))
    && (x.digits == "" ==> x.rest == "" && x.alpha != "" && NoDigits(x.alpha))
  }

  function Whole(x: Parts): string { x.alpha + x.digits + x.rest }

  predicate IsNumeric(x: Parts) { x.alpha == "" && x.rest == "" }

  /** Every identifier has parts. */
  function PartsOf(p: string): (x: Parts)
    requires p != ""
    ensures IsParts(x) && Whole(x) == p
  {
    var e := LastDigitEnd(p, |p|);
    if e == 0 then
      assert p[0..|p|] == p && p + "" + "" == p;
      Parts(p, "", "")
    else
      var b := RunStart(p, e);
      assert p[e..|p|] == p[e..] && (p[..b] != "" ==> p[..b][b - 1] == p[b - 1]);
      assert p == p[..b] + p[b..e] + p[e..];
      Parts(p[..b], p[b..e], p[e..])
  }

  lemma PartsKey(x: Parts)
    requires IsParts(x)
    ensures PrereleaseKey(Whole(x)) == Key(x.alpha, Saturated(x.digits))
    ensures AllDigits(Whole(x)) <==> IsNumeric(x)
  {
    if x.digits == "" {
      assert Whole(x) == x.alpha;
      NoDigitEnd(x.alpha, |x.alpha|);
      assert !IsDigit(x.alpha[0]);
    } else {
      KeyOf(x.alpha, x.digits, x.rest);
      if x.alpha != "" { assert Whole(x)[|x.alpha| - 1] == x.alpha[|x.alpha| - 1]; }
      if x.rest != "" { assert Whole(x)[|x.alpha| + |x.digits|] == x.rest[0]; }
    }
  }

  lemma {:induction false} NoDigitEnd(p: string, n: nat)
    requires NoDigits(p) && n <= |p|
    ensures LastDigitEnd(p, n) == 0
  {
    if n > 0 { NoDigitEnd(p, n - 1); }
  }

  predicate StartsWith(s: string, p: string) {
    |p| <= |s| && s[..|p|] == p
  }

  lemma {:induction false} DifferEarly(a: string, b: string, s: string, t: string)
    requires !StartsWith(a, b) && !StartsWith(b, a)
    ensures CompareString(a + s, b + t) == CompareString(a, b) != 0
  {
    assert a != "" && b != "";
    assert (a + s)[0] == a[0] && (b + t)[0] == b[0];
    if a[0] == b[0] {
      assert a == [a[0]] + a[1..] && b == [b[0]] + b[1..];
      TailStartsWith(a, b);
      TailStartsWith(b, a);
      DifferEarly(a[1..], b[1..], s, t);
      assert (a + s)[1..] == a[1..] + s && (b + t)[1..] == b[1..] + t;
    }
  }

  lemma TailStartsWith(s: string, p: string)
    requires s != "" && p != "" && s[0] == p[0]
    ensures StartsWith(s[1..], p[1..]) ==> StartsWith(s, p)
  {
    assert s == [s[0]] + s[1..] && p == [p[0]] + p[1..];
  }

  lemma ExtensionIsGreater(a: string, b: string)
    requires StartsWith(b, a) && a != b
    ensures CompareString(a, b) == -1
  {
    LexSkip(a, "", b[|a|..]);
    assert a + "" == a && a + b[|a|..] == b;
  }

  /** What decides item 11 on texts of which the first's alpha begins the second's. */
  lemma PastTheAlpha(x: Parts, y: Parts)
    requires StartsWith(y.alpha, x.alpha)
    ensures CompareString(Whole(x), Whole(y)) == CompareString(x.digits + x.rest,
                                                               y.alpha[|x.alpha|..] + y.digits + y.rest)
  {
    var tail := y.alpha[|x.alpha|..] + y.digits + y.rest;
    LexSkip(x.alpha, x.digits + x.rest, tail);
    assert y.alpha == x.alpha + y.alpha[|x.alpha|..];
    assert Whole(x) == x.alpha + (x.digits + x.rest) && Whole(y) == x.alpha + tail;
  }

  /** The text of the shorter run of digits d, with r after it, is before that of the longer e. */
  predicate TextFirst(d: string, r: string, e: string)
    requires AllDigits(d) && AllDigits(e) && |d| < |e|
  {
    var p := e[..|d|];
    Value(d) < Value(p) || (Value(d) == Value(p) && (r == "" || r[0] < '0'))
  }

  /** As numbers the two runs are ordered as their texts are. */
  predicate ShorterAlike(d: string, r: string, e: string)
    requires AllDigits(d) && AllDigits(e) && |d| < |e|
  {
    if TextFirst(d, r, e) then Saturated(d) < Saturated(e) else Saturated(d) > Saturated(e)
  }

  /** After the same text: a number is before what is no number; two numbers past int64 tie
      only if they are equal; other runs of one length need the same rest or numbers that
      differ below saturation; runs of two lengths, texts in the order of the numbers. */
  predicate DigitsAlike(x: Parts, y: Parts)
    requires IsParts(x) && IsParts(y)
  {
    var d, e := x.digits, y.digits;
    if IsNumeric(x) && IsNumeric(y) then Saturated(d) == Saturated(e) ==> Value(d) == Value(e)
    else if IsNumeric(x) then Saturated(d) < Saturated(e)
    else if IsNumeric(y) then Saturated(d) > Saturated(e)
    else if d == e then x.rest == y.rest
    else if |d| == |e| then Saturated(d) != Saturated(e)
    else if |d| < |e| then ShorterAlike(d, x.rest, e)
    else ShorterAlike(e, y.rest, d)
  }

  lemma OneLength(d: string, r: string, e: string, q: string)
    requires AllDigits(d) && AllDigits(e) && |d| == |e|
    ensures CompareString(d + r, e + q) == if d == e then CompareString(r, q) else CompareInt(Value(d), Value(e))
    ensures d != e ==> Value(d) != Value(e)
  {
    if d == e {
      LexSkip(d, r, q);
    } else {
      assert d[..|d|] == d && e[..|e|] == e;
      DifferEarly(d, e, r, q);
      SameLengthOrder(d, e);
    }
  }

  lemma TwoLengths(d: string, r: string, e: string, q: string)
    requires AllDigits(d) && AllDigits(e) && |d| < |e| && NoDigits(r)
    ensures CompareString(d + r, e + q) == if TextFirst(d, r, e) then -1 else 1
  {
    var p, tail := e[..|d|], e[|d|..] + q;
    assert e + q == p + tail;
    OneLength(d, r, p, tail);
    assert IsDigit(tail[0]) && tail[0] == e[|d|];
    assert r != "" ==> !IsDigit(r[0]);
    hide Value, AllDigits, NoDigits;
  }

  lemma DigitsAlikeIff(x: Parts, y: Parts)
    requires IsParts(x) && IsParts(y)
    ensures DigitsAlike(x, y) <==>
              CompareInt(Saturated(x.digits), Saturated(y.digits)) ==
              if IsNumeric(x) && IsNumeric(y) then CompareInt(Value(x.digits), Value(y.digits))
              else if IsNumeric(x) then -1
              else if IsNumeric(y) then 1
              else CompareString(x.digits + x.rest, y.digits + y.rest)
  {
    var d, e := x.digits, y.digits;
    if |d| == |e| {
      OneLength(d, x.rest, e, y.rest);
      EqualStrings(x.rest, y.rest);
    } else if |d| < |e| {
      TwoLengths(d, x.rest, e, y.rest);
    } else {
      TwoLengths(e, y.rest, d, x.rest);
      StringsAreOrdered();
    }
    hide CompareString, TextFirst, AllDigits, NoDigits, Value;
  }

  /** When the key order and item 11 agree on two identifiers. Texts that differ before the
      digits are ordered alike; else the numbers must be ordered as what stands there is. */
  predicate OrderedAlike(x: Parts, y: Parts)
    requires IsParts(x) && IsParts(y)
  {
    if x.alpha == y.alpha then
      DigitsAlike(x, y)
    else if StartsWith(y.alpha, x.alpha) then
      IsNumeric(x) || CompareString(x.digits + x.rest, y.alpha[|x.alpha|..] + y.digits + y.rest) == -1
    else if StartsWith(x.alpha, y.alpha) then
      IsNumeric(y) || CompareString(x.alpha[|y.alpha|..] + x.digits + x.rest, y.digits + y.rest) == 1
    else true
  }

  /** The exact condition, for all pairs of identifiers. */
  lemma IdentifiersAgreeIff(x: Parts, y: Parts)
    requires IsParts(x) && IsParts(y)
    ensures CompareKey(PrereleaseKey(Whole(x)), PrereleaseKey(Whole(y))) == SpecIdentifier(Whole(x), Whole(y))
            <==> OrderedAlike(x, y)
  {
    BothByParts(x, y);
    EqualStrings(x.alpha, y.alpha);
    hide PrereleaseKey, SpecIdentifier, CompareKey, AllDigits, NoDigits, CompareString, StartsWith, Saturated, Value,
        Whole;
    if x.alpha == y.alpha {
      SameAlpha(x, y);
      DigitsAlikeIff(x, y);
      hide DigitsAlike;
    } else if StartsWith(y.alpha, x.alpha) {
      ShorterAlpha(x, y);
    } else if StartsWith(x.alpha, y.alpha) {
      LongerAlpha(x, y);
    } else {
      OtherAlpha(x, y);
    }
  }

  /** Both orders, on the parts. */
  lemma BothByParts(x: Parts, y: Parts)
    requires IsParts(x) && IsParts(y)
    ensures CompareKey(PrereleaseKey(Whole(x)), PrereleaseKey(Whole(y)))
         == Then(CompareString(x.alpha, y.alpha), CompareInt(Saturated(x.digits), Saturated(y.digits)))
    ensures SpecIdentifier(Whole(x), Whole(y)) ==
              if IsNumeric(x) && IsNumeric(y) then CompareInt(Value(x.digits), Value(y.digits))
              else if IsNumeric(x) then -1
              else if IsNumeric(y) then 1
              else CompareString(Whole(x), Whole(y))
  {
    PartsKey(x);
    PartsKey(y);
    assert IsNumeric(x) ==> Whole(x) == x.digits;
    assert IsNumeric(y) ==> Whole(y) == y.digits;
    hide PrereleaseKey, AllDigits, NoDigits, CompareString, Value;
  }

  lemma OtherAlpha(x: Parts, y: Parts)
    requires !StartsWith(x.alpha, y.alpha) && !StartsWith(y.alpha, x.alpha)
    ensures x.alpha != "" && y.alpha != "" && CompareString(Whole(x), Whole(y)) == CompareString(x.alpha, y.alpha) != 0
  {
    NeverEmpty(x, y);
    DifferEarly(x.alpha, y.alpha, x.digits + x.rest, y.digits + y.rest);
    assert Whole(x) == x.alpha + (x.digits + x.rest) && Whole(y) == y.alpha + (y.digits + y.rest);
  }

  lemma NeverEmpty(x: Parts, y: Parts)
    requires !StartsWith(x.alpha, y.alpha) && !StartsWith(y.alpha, x.alpha)
    ensures x.alpha != "" && y.alpha != ""
  {
  }

  lemma SameAlpha(x: Parts, y: Parts)
    requires x.alpha == y.alpha
    ensures CompareString(Whole(x), Whole(y)) == CompareString(x.digits + x.rest, y.digits + y.rest)
  {
    PastTheAlpha(x, y);
    assert y.alpha[|x.alpha|..] + y.digits == y.digits;
  }

  lemma ShorterAlpha(x: Parts, y: Parts)
    requires x.alpha != y.alpha && StartsWith(y.alpha, x.alpha)
    ensures y.alpha != "" && CompareString(x.alpha, y.alpha) == -1
    ensures CompareString(Whole(x), Whole(y)) == CompareString(x.digits + x.rest,
                                                               y.alpha[|x.alpha|..] + y.digits + y.rest)
  {
    PastTheAlpha(x, y);
    ExtensionIsGreater(x.alpha, y.alpha);
  }

  lemma LongerAlpha(x: Parts, y: Parts)
    requires x.alpha != y.alpha && StartsWith(x.alpha, y.alpha)
    ensures x.alpha != "" && CompareString(x.alpha, y.alpha) == 1 && !StartsWith(y.alpha, x.alpha)
    ensures CompareString(Whole(x), Whole(y)) == CompareString(x.alpha[|y.alpha|..] + x.digits + x.rest,
                                                               y.digits + y.rest)
  {
    PastTheAlpha(y, x);
    ExtensionIsGreater(y.alpha, x.alpha);
    StringsAreOrdered();
  }

  lemma WithTail(x: Parts, w: string)
    requires IsParts(x) && !NoDigits(Whole(x)) && NoDigits(w)
    ensures IsParts(x.(rest := x.rest + w)) && Whole(x.(rest := x.rest + w)) == Whole(x) + w
  {
    assert x.digits == "" ==> Whole(x) == x.alpha;
    forall i | 0 <= i < |x.rest + w| ensures !IsDigit((x.rest + w)[i]) {}
  }

  /** A family that always fails: whatever follows the last digit is ignored, where item 11
      puts the longer identifier after. */
  lemma TailIsIgnored(p: string, w: string)
    requires !NoDigits(p) && w != "" && NoDigits(w)
    ensures CompareKey(PrereleaseKey(p), PrereleaseKey(p + w)) == 0 && SpecIdentifier(p, p + w) == -1
  {
    var x := PartsOf(p);
    WithTail(x, w);
    PartsKey(x);
    PartsKey(x.(rest := x.rest + w));
    LexSkip(p, "", w);
    assert p + "" == p && !IsNumeric(x.(rest := x.rest + w));
    KeysTie(PrereleaseKey(p), PrereleaseKey(p + w));
    hide PrereleaseKey, AllDigits, PartsOf, NoDigits, Whole, CompareKey;
  }

  // ----- the same for whole prereleases -----

  ghost predicate NoEmpty(parts: seq<string>) {
    forall i :: 0 <= i < |parts| ==> parts[i] != ""
  }

  /** The first identifiers that item 11 tells apart are ordered alike; or their keys tie, and
      what follows them happens to be ordered as item 11 orders these. */
  ghost predicate ListsAlike(a: seq<string>, b: seq<string>)
    requires NoEmpty(a) && NoEmpty(b)
  {
    || a == [] || b == []
    || if SpecIdentifier(a[0], b[0]) == 0 then ListsAlike(a[1..], b[1..])
       else if PrereleaseKey(a[0]) == PrereleaseKey(b[0]) then
         Lex(CompareKey, Keys(a[1..]), Keys(b[1..])) == SpecIdentifier(a[0], b[0])
       else OrderedAlike(PartsOf(a[0]), PartsOf(b[0]))
  }

  lemma KeysTie(k: Key, l: Key)
    ensures CompareKey(k, l) == 0 <==> k == l
  {
    EqualStrings(k.alpha, l.alpha);
  }

  /** Identifiers that item 11 does not tell apart have the same key. */
  lemma SameIdentifier(a: string, b: string)
    requires a != "" && b != "" && SpecIdentifier(a, b) == 0
    ensures PrereleaseKey(a) == PrereleaseKey(b)
  {
    PartsKey(PartsOf(a));
    PartsKey(PartsOf(b));
    if AllDigits(a) && AllDigits(b) {
      assert Whole(PartsOf(a)) == PartsOf(a).digits && Whole(PartsOf(b)) == PartsOf(b).digits;
    } else {
      EqualStrings(a, b);
    }
    hide PrereleaseKey, PartsOf, Value;
  }

  lemma {:induction false} ListsAgreeIff(a: seq<string>, b: seq<string>)
    requires NoEmpty(a) && NoEmpty(b)
    ensures Lex(CompareKey, Keys(a), Keys(b)) == Lex(SpecIdentifier, a, b) <==> ListsAlike(a, b)
  {
    hide PrereleaseKey, SpecIdentifier, OrderedAlike, PartsOf, CompareKey;
    if a != [] && b != [] {
      assert Keys(a)[1..] == Keys(a[1..]) && Keys(b)[1..] == Keys(b[1..]);
      KeysTie(PrereleaseKey(a[0]), PrereleaseKey(b[0]));
      IdentifiersAgreeIff(PartsOf(a[0]), PartsOf(b[0]));
      if SpecIdentifier(a[0], b[0]) == 0 {
        SameIdentifier(a[0], b[0]);
        ListsAgreeIff(a[1..], b[1..]);
      }
    }
  }

  /** The exact condition, for all pairs of prereleases without an empty identifier, which is
      all a version can have. */
  lemma PrereleasesAgreeIff(a: string, b: string)
    requires (a != "" ==> NoEmpty(SplitDots(a))) && (b != "" ==> NoEmpty(SplitDots(b)))
    ensures PrereleaseCmp(a, b) == SpecPrerelease(a, b)
            <==> a == "" || b == "" || ListsAlike(SplitDots(a), SplitDots(b))
  {
    if a != "" && b != "" {
      ListsAgreeIff(SplitDots(a), SplitDots(b));
    }
    hide SplitDots, ListsAlike, Keys;
  }

  // ----- numbers as text -----

  /** Digits without a superfluous leading zero. */
  predicate Canonical(d: string) {
    d != "" && AllDigits(d) && (d[0] != '0' || d == "0")
  }

  /** Of digit strings of one length the text order is the numeric one. */
  lemma {:induction false} SameLengthOrder(a: string, b: string)
    requires AllDigits(a) && AllDigits(b) && |a| == |b|
    ensures CompareString(a, b) == CompareInt(Value(a), Value(b))
  {
    if a != "" {
      var n := |a| - 1;
      SameLengthOrder(a[..n], b[..n]);
      LastDecides(a, b);
      hide CompareString;
    }
  }

  lemma {:induction false} LastDecides(a: string, b: string)
    requires |a| == |b| > 0
    ensures var n := |a| - 1;
            CompareString(a, b) == Then(CompareString(a[..n], b[..n]), CompareChar(a[n], b[n]))
  {
    var n := |a| - 1;
    if n > 0 {
      LastDecides(a[1..], b[1..]);
      assert a[1..][..n - 1] == a[..n][1..] && b[1..][..n - 1] == b[..n][1..];
      assert a[..n][0] == a[0] && b[..n][0] == b[0] && a[1..][n - 1] == a[n] && b[1..][n - 1] == b[n];
    } else {
      assert a[1..] == "" && b[1..] == "" && a[..0] == "" && b[..0] == "";
    }
  }

  lemma {:induction false} ValueRange(d: string)
    requires d != "" && AllDigits(d)
    ensures Value(d) < Power(|d|)
    ensures d[0] != '0' ==> Power(|d| - 1) <= Value(d)
  {
    var n := |d| - 1;
    if n > 0 { ValueRange(d[..n]); } else { assert d[..0] == ""; }
  }

  function Power(n: nat): nat {
    if n == 0 then 1 else 10 * Power(n - 1)
  }

  lemma {:induction false} PowersGrow(m: nat, n: nat)
    requires m <= n
    ensures Power(m) <= Power(n)
  {
    if m < n { PowersGrow(m, n - 1); }
  }

  /** The longer of two canonical numbers is the greater. */
  lemma LongerIsGreater(a: string, b: string)
    requires Canonical(a) && Canonical(b) && |a| < |b|
    ensures Value(a) < Value(b)
  {
    ValueRange(a);
    ValueRange(b);
    PowersGrow(|a|, |b| - 1);
  }

  /** The other family: text followed by a number is compared by number where item 11
      compares text. They agree exactly on numbers of one length, and on those of two
      lengths whose text order happens to be that of the lengths. */
  lemma NumbersAreNotText(alpha: string, a: string, b: string)
    requires alpha != "" && !IsDigit(alpha[|alpha| - 1]) && Canonical(a) && Canonical(b) && Value(a) <= MAX_INT
             && Value(b) <= MAX_INT
    ensures var key := CompareKey(PrereleaseKey(alpha + a), PrereleaseKey(alpha + b));
            var spec := SpecIdentifier(alpha + a, alpha + b);
            && key == CompareInt(Value(a), Value(b)) && spec == CompareString(a, b)
            && (key == spec <==> |a| == |b| || CompareString(a, b) == CompareInt(|a|, |b|))
  {
    var x, y := Parts(alpha, a, ""), Parts(alpha, b, "");
    assert Whole(x) == alpha + a && Whole(y) == alpha + b;
    PartsKey(x);
    PartsKey(y);
    EqualStrings(alpha, alpha);
    LexSkip(alpha, a, b);
    NumberOrder(a, b);
    hide PrereleaseKey, AllDigits, CompareString, Value;
  }

  lemma NumberOrder(a: string, b: string)
    requires Canonical(a) && Canonical(b)
    ensures CompareInt(Value(a), Value(b)) == if |a| == |b| then CompareString(a, b) else CompareInt(|a|, |b|)
  {
    if |a| == |b| {
      SameLengthOrder(a, b);
    } else if |a| < |b| {
      LongerIsGreater(a, b);
    } else {
      LongerIsGreater(b, a);
    }
  }

  /** Two prereleases of each kind: "rc9" and "rc10" are ordered by number, where the
      specification orders them as text; "rc1a" and "rc1b" tie. */
  lemma DisagreesOnMixed()
    ensures PrereleaseCmp("rc9", "rc10") == -1 && SpecPrerelease("rc9", "rc10") == 1
    ensures PrereleaseCmp("rc1a", "rc1b") == 0 && SpecPrerelease("rc1a", "rc1b") == -1
  {
    RcKeys();
    hide PrereleaseKey, LastDigitEnd, RunStart;
    SingleIdentifier("rc9");
    SingleIdentifier("rc10");
    SingleIdentifier("rc1a");
    SingleIdentifier("rc1b");
    hide SplitDots;
    EqualStrings("rc", "rc");
    RcTexts();
    hide CompareString;
    LexOne(CompareKey, Keys(["rc9"]), Keys(["rc10"]));
    LexOne(CompareKey, Keys(["rc1a"]), Keys(["rc1b"]));
    LexOne(SpecIdentifier, ["rc9"], ["rc10"]);
    LexOne(SpecIdentifier, ["rc1a"], ["rc1b"]);
    assert !IsDigit("rc9"[0]) && !IsDigit("rc10"[0]) && !IsDigit("rc1a"[0]) && !IsDigit("rc1b"[0]);
  }

  lemma LexOne<T>(c: (T, T) -> int, a: seq<T>, b: seq<T>)
    requires |a| == |b| == 1
    ensures Lex(c, a, b) == c(a[0], b[0])
  {
  }

  lemma RcKeys()
    ensures PrereleaseKey("rc9") == Key("rc", 9) && PrereleaseKey("rc10") == Key("rc", 10)
    ensures PrereleaseKey("rc1a") == PrereleaseKey("rc1b") == Key("rc", 1)
  {
    hide PrereleaseKey, Value, Saturated;
    SmallValues();
    KeyOf("rc", "9", "");
    KeyOf("rc", "10", "");
    KeyOf("rc", "1", "a");
    KeyOf("rc", "1", "b");
    assert "rc" + "9" + "" == "rc9" && "rc" + "10" + "" == "rc10" && "rc" + "1" + "a" == "rc1a"
           && "rc" + "1" + "b" == "rc1b";
  }

  lemma SmallValues()
    ensures Saturated("1") == 1 && Saturated("9") == 9 && Saturated("10") == 10
  {
    assert "9"[..0] == "" && "10"[..1] == "1" && "1"[..0] == "";
    assert Value("1") == 1 && Value("9") == 9 && Value("10") == 10;
  }

  lemma RcTexts()
    ensures CompareString("rc9", "rc10") == 1 && CompareString("rc1a", "rc1b") == -1
  {
    LexSkip("rc", "9", "10");
    LexSkip("rc1", "a", "b");
    assert "rc" + "9" == "rc9" && "rc" + "10" == "rc10" && "rc1" + "a" == "rc1a" && "rc1" + "b" == "rc1b";
  }

  /** A common prefix does not decide. */
  lemma {:induction false} LexSkip(p: string, a: string, b: string)
    ensures CompareString(p + a, p + b) == CompareString(a, b)
  {
    if p == "" {
      assert p + a == a && p + b == b;
    } else {
      LexSkip(p[1..], a, b);
      assert (p + a)[1..] == p[1..] + a && (p + b)[1..] == p[1..] + b;
    }
  }

  /** The key of text, digits, text without digits. */
  lemma KeyOf(alpha: string, digits: string, rest: string)
    requires AllDigits(digits) && digits != "" && NoDigits(rest) && (alpha != "" ==> !IsDigit(alpha[|alpha| - 1]))
    ensures PrereleaseKey(alpha + digits + rest) == Key(alpha, Saturated(digits))
  {
    var p := alpha + digits + rest;
    var n := |alpha + digits|;
    assert IsDigit(p[n - 1]);
    LastDigitIs(p, |p|, n);
    RunStartIs(p, n, |alpha|);
    assert p[..|alpha|] == alpha && p[|alpha|..n] == digits;
  }

  lemma {:induction false} LastDigitIs(p: string, n: nat, e: nat)
    requires 0 < e <= n <= |p| && IsDigit(p[e - 1]) && forall i :: e <= i < n ==> !IsDigit(p[i])
    ensures LastDigitEnd(p, n) == e
  {
    if e < n { LastDigitIs(p, n - 1, e); }
  }

  lemma {:induction false} RunStartIs(p: string, e: nat, b: nat)
    requires b <= e <= |p| && (forall i :: b <= i < e ==> IsDigit(p[i])) && (b > 0 ==> !IsDigit(p[b - 1]))
    ensures RunStart(p, e) == b
  {
    if b < e { RunStartIs(p, e - 1, b); }
  }

  lemma {:induction false} SingleIdentifier(p: string)
    requires forall i :: 0 <= i < |p| ==> p[i] != '.'
    ensures SplitDots(p) == [p]
  {
    if p != "" {
      SingleIdentifier(p[1..]);
      assert [p[0]] + p[1..] == p;
    }
  }

  // ----- parsing -----

  predicate NumericIdentifier(s: string) {
    s != "" && AllDigits(s) && (s == "0" || s[0] != '0')
  }

  predicate IdentifierChars(s: string) {
    s != "" && forall i :: 0 <= i < |s| ==> IsDigit(s[i]) || IsLetter(s[i]) || s[i] == '-'
  }

  predicate PrereleaseIdentifier(s: string) {
    IdentifierChars(s) && (AllDigits(s) ==> NumericIdentifier(s))
  }

  predicate PrereleaseText(s: string) {
    forall i :: 0 <= i < |SplitDots(s)| ==> PrereleaseIdentifier(SplitDots(s)[i])
  }

  predicate BuildText(s: string) {
    forall i :: 0 <= i < |SplitDots(s)| ==> IdentifierChars(SplitDots(s)[i])
  }

  /** The text up to the first occurrence of c, and what follows it. */
  function Cut(s: string, c: char): (string, Option<string>) {
    if s == "" then ("", None)
    else if s[0] == c then ("", Some(s[1..]))
    else var (before, after) := Cut(s[1..], c); ([s[0]] + before, after)
  }

  /** semver.New: the regular expression read as "v? core (-prerelease)? (+build)?", where
      the first '+' starts the build and the first '-' before it the prerelease. */
  function New(s: string): Option<Semver> {
    var t := if s != "" && s[0] == 'v' then s[1..] else s;
    var (main, build) := Cut(t, '+');
    var (core, pre) := Cut(main, '-');
    var numbers := SplitDots(core);
    if && |numbers| == 3
       && NumericIdentifier(numbers[0]) && NumericIdentifier(numbers[1]) && NumericIdentifier(numbers[2])
       && (pre.Some? ==> PrereleaseText(pre.value))
       && (build.Some? ==> BuildText(build.value))
    then Some(Semver(Saturated(numbers[0]), Saturated(numbers[1]), Saturated(numbers[2]),
                     if pre.Some? then pre.value else "", if build.Some? then build.value else ""))
    else None
  }

  /** semver.Cmp on strings: what does not parse comes first. */
  function Cmp(a: string, b: string): int {
    var av, bv := New(a), New(b);
    if av.None? then -1 else if bv.None? then 1 else Compare(av.value, bv.value)
  }

  /** Two such strings. */
  lemma BothAreSmaller()
    ensures Cmp("x", "y") == -1 == Cmp("y", "x")
  {
    SingleIdentifier("x");
    SingleIdentifier("y");
    NothingToCut('x', '+');
    NothingToCut('x', '-');
    NothingToCut('y', '+');
    NothingToCut('y', '-');
    hide SplitDots, Cut;
    assert ['x'] == "x" && ['y'] == "y";
    assert New("x").None? && New("y").None?;
  }

  lemma NothingToCut(c: char, k: char)
    requires c != k
    ensures Cut([c], k) == ([c], None)
  {
    assert [c][1..] == "" && [c] + "" == [c];
    assert Cut("", k) == ("", None);
  }

  /** Cmp is antisymmetric on a pair if and only if one of the two parses: two strings
      that do not are each reported smaller than the other. */
  lemma CmpAntisymmetricIff(a: string, b: string)
    ensures Cmp(a, b) == -Cmp(b, a) <==> New(a).Some? || New(b).Some?
  {
    SemversAreOrdered();
  }
}
