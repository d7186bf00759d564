/** strings.TrimSpace and strings.Split, on text of which a char stands for one byte. */
module Texts {

  // ----- white space at either end, in UTF-8 -----

  predicate AsciiSpace(c: char) {
    '\t' <= c <= '\r' || c == ' '
  }

  /** U+0085 and U+00A0. */
  predicate TwoByteSpace(a: char, b: char) {
    a == '\U{C2}' && (b == '\U{85}' || b == '\U{A0}')
  }

  /** U+1680, U+2000 to U+200A, U+2028, U+2029, U+202F, U+205F and U+3000. */
  predicate ThreeByteSpace(a: char, b: char, c: char) {
    || (a == '\U{E1}' && b == '\U{9A}' && c == '\U{80}')
    || (a == '\U{E2}' && b == '\U{80}' && ('\U{80}' <= c <= '\U{8A}' || c == '\U{A8}' || c == '\U{A9}'
                                           || c == '\U{AF}'))
    || (a == '\U{E2}' && b == '\U{81}' && c == '\U{9F}')
    || (a == '\U{E3}' && b == '\U{80}' && c == '\U{80}')
  }

  /** The length of the white-space character s starts with, or 0. */
  function Leading(s: string): (n: nat)
    ensures n <= |s|
  {
    if |s| >= 1 && AsciiSpace(s[0]) then 1
    else if |s| >= 2 && TwoByteSpace(s[0], s[1]) then 2
    else if |s| >= 3 && ThreeByteSpace(s[0], s[1], s[2]) then 3
    else 0
  }

  /** The length of the white-space character s ends with, or 0. */
  function Trailing(s: string): (n: nat)
    ensures n <= |s|
  {
    var k := |s|;
    if k >= 1 && AsciiSpace(s[k - 1]) then 1
    else if k >= 2 && TwoByteSpace(s[k - 2], s[k - 1]) then 2
    else if k >= 3 && ThreeByteSpace(s[k - 3], s[k - 2], s[k - 1]) then 3
    else 0
  }

  function TrimLeft(s: string): string
    decreases |s|
  {
    var n := Leading(s);
    if n == 0 then s else TrimLeft(s[n..])
  }

  function TrimRight(s: string): string
    decreases |s|
  {
    var n := Trailing(s);
    if n == 0 then s else TrimRight(s[..|s| - n])
  }

  function TrimSpace(s: string): string {
    TrimRight(TrimLeft(s))
  }

  // ----- pieces -----

  /** strings.Split at a one-character separator. */
  function Split(s: string, sep: char): (parts: seq<string>)
    ensures parts != []
  {
    if s == "" then [""]
    else
      var rest := Split(s[1..], sep);
      if s[0] == sep then [""] + rest else [[s[0]] + rest[0]] + rest[1..]
  }

  // ----- what these come to -----

  function JoinedBy(parts: seq<string>, sep: char): string
    requires parts != []
  {
    if |parts| == 1 then parts[0] else parts[0] + [sep] + JoinedBy(parts[1..], sep)
  }

  /** Joining the pieces again gives the text back. */
  lemma {:induction false} SplitJoins(s: string, sep: char)
    ensures JoinedBy(Split(s, sep), sep) == s
  {
    if s != "" {
      SplitJoins(s[1..], sep);
      var rest := Split(s[1..], sep);
      if s[0] == sep {
        assert ([""] + rest)[1..] == rest;
        assert "" + [sep] + JoinedBy(rest, sep) == [s[0]] + s[1..];
      } else {
        assert ([[s[0]] + rest[0]] + rest[1..])[1..] == rest[1..];
        FirstGrows(rest, s[0], sep);
      }
      assert [s[0]] + s[1..] == s;
    }
  }

  lemma FirstGrows(parts: seq<string>, c: char, sep: char)
    requires parts != []
    ensures JoinedBy([[c] + parts[0]] + parts[1..], sep) == [c] + JoinedBy(parts, sep)
  {
    var more := [[c] + parts[0]] + parts[1..];
    assert more[1..] == parts[1..];
    if |parts| > 1 {
      assert ([c] + parts[0]) + [sep] + JoinedBy(parts[1..], sep) ==
             [c] + (parts[0] + [sep] + JoinedBy(parts[1..], sep));
    }
  }

  /** And no piece has the separator in it. */
  lemma {:induction false} PiecesAreFree(s: string, sep: char)
    ensures forall i :: 0 <= i < |Split(s, sep)| ==> sep !in Split(s, sep)[i]
  {
    if s != "" {
      PiecesAreFree(s[1..], sep);
      var rest, parts := Split(s[1..], sep), Split(s, sep);
      forall i | 0 <= i < |parts| ensures sep !in parts[i] {
        if s[0] == sep {
          if i > 0 { assert parts[i] == rest[i - 1]; }
        } else if i > 0 {
          assert parts[i] == rest[i];
        }
      }
    }
  }

  /** Nothing but white space: characters of it, one after the other. */
  ghost predicate Blank(s: string)
    decreases |s|
  {
    s == "" || (Leading(s) > 0 && Blank(s[Leading(s)..]))
  }

  ghost predicate BlankBackwards(s: string)
    decreases |s|
  {
    s == "" || (Trailing(s) > 0 && BlankBackwards(s[..|s| - Trailing(s)]))
  }

  lemma Assoc(a: string, b: string, c: string)
    ensures a + (b + c) == (a + b) + c
  {
  }

  lemma {:induction false} LeftTrims(s: string) returns (space: string)
    ensures s == space + TrimLeft(s) && Leading(TrimLeft(s)) == 0 && Blank(space)
    decreases |s|
  {
    hide Leading, Blank;
    var n := Leading(s);
    if n == 0 {
      space := "";
      NothingIsBlank();
      assert space + s == s;
    } else {
      var more := LeftTrims(s[n..]);
      space := s[..n] + more;
      Assoc(s[..n], more, TrimLeft(s[n..]));
      assert s == s[..n] + s[n..];
      SameLeading(s[..n], more, s);
      MoreIsBlank(s[..n], more);
    }
  }

  lemma NothingIsBlank()
    ensures Blank("") && BlankBackwards("")
  {
  }

  lemma MoreIsBlank(c: string, more: string)
    requires Leading(c + more) == |c| > 0 && Blank(more)
    ensures Blank(c + more)
  {
    hide Leading;
    assert (c + more)[|c|..] == more;
  }

  lemma MoreIsBlankBackwards(more: string, c: string)
    requires Trailing(more + c) == |c| > 0 && BlankBackwards(more)
    ensures BlankBackwards(more + c)
  {
    hide Trailing;
    assert (more + c)[..|more|] == more;
  }

  /** A white-space character is one wherever the text goes on differently. */
  lemma SameLeading(c: string, more: string, s: string)
    requires Leading(s) == |c| > 0 && c == s[..|c|]
    ensures Leading(c + more) == |c| && (c + more)[|c|..] == more
  {
    var t := c + more;
    assert forall i :: 0 <= i < |c| ==> t[i] == s[i];
  }

  lemma {:induction false} RightTrims(s: string) returns (space: string)
    ensures s == TrimRight(s) + space && Trailing(TrimRight(s)) == 0 && BlankBackwards(space)
    decreases |s|
  {
    hide Trailing, BlankBackwards;
    var n := Trailing(s);
    if n == 0 {
      space := "";
      NothingIsBlank();
      assert s + space == s;
    } else {
      var k := |s| - n;
      var more := RightTrims(s[..k]);
      space := more + s[k..];
      Assoc(TrimRight(s[..k]), more, s[k..]);
      assert s == s[..k] + s[k..];
      SameTrailing(more, s[k..], s);
      MoreIsBlankBackwards(more, s[k..]);
    }
  }

  lemma SameTrailing(more: string, c: string, s: string)
    requires Trailing(s) == |c| > 0 && c == s[|s| - |c|..]
    ensures Trailing(more + c) == |c| && (more + c)[..|more|] == more
  {
    var t := more + c;
    assert forall i :: 0 <= i < |c| ==> c[i] == t[|more| + i] && c[i] == s[|s| - |c| + i];
  }

  /** Trimming takes white space off both ends, and all there is of it. */
  lemma TrimSpaceIs(s: string) returns (left: string, right: string)
    ensures s == left + TrimSpace(s) + right && Blank(left) && BlankBackwards(right)
    ensures Trailing(TrimSpace(s)) == 0 && (TrimSpace(s) != "" ==> !AsciiSpace(TrimSpace(s)[0]))
  {
    left := LeftTrims(s);
    right := RightTrims(TrimLeft(s));
    hide TrimLeft, TrimRight, Blank, BlankBackwards;
    var t := TrimSpace(s);
    Assoc(left, t, right);
    if t != "" { assert t[0] == TrimLeft(s)[0]; }
  }
}
