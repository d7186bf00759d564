/** What the manifest parser makes of text it did not print (pkg/stabilize/manifest.go:92-180,
    238-246). */
module ManifestLaws {
  import opened ManifestText
  import opened ManifestProofs
  import opened Texts

  ghost predicate AllUnbroken(lines: seq<string>) {
    forall i :: 0 <= i < |lines| ==> Unbroken(lines[i])
  }

  lemma FreeOfBreaks(lines: seq<string>)
    requires AllUnbroken(lines)
    ensures forall i :: 0 <= i < |lines| ==> Free(lines[i], '\r') && Free(lines[i], '\n')
  {
    forall i | 0 <= i < |lines| ensures Free(lines[i], '\r') && Free(lines[i], '\n') {
      assert Unbroken(lines[i]);
    }
  }

  lemma Untouched(s: string, what: string, by_: string)
    requires what != "" && Free(s, what[0])
    ensures ReplaceAll(s, what, by_) == s
  {
    ReplaceSkips(s, "", what, by_);
    assert s + "" == s;
  }

  /** Ends of CRLF, of LF or of CR alone all become CRLF. */
  lemma EndsBecomeCrlf(lines: seq<string>)
    requires AllUnbroken(lines)
    ensures NormalizeLineEndings(JoinWith(lines, "\n")) == JoinWith(lines, CRLF)
    ensures NormalizeLineEndings(JoinWith(lines, "\r")) == JoinWith(lines, CRLF)
    ensures NormalizeLineEndings(JoinWith(lines, CRLF)) == JoinWith(lines, CRLF)
  {
    FreeOfBreaks(lines);
    JoinFree(lines, "\n", '\r');
    Untouched(JoinWith(lines, "\n"), CRLF, "\n");
    Untouched(JoinWith(lines, "\n"), "\r", "\n");
    ReplaceEnds(lines, "\n", CRLF);
    JoinIsJoinWith(lines);
    NormalizeJoined(lines);
    CrAlone(lines);
    ReplaceEnds(lines, "\r", "\n");
    hide ReplaceAll;
  }

  /** Without a line feed there is no CRLF to replace. */
  lemma {:induction false} NoCrlf(s: string)
    requires Free(s, '\n')
    ensures ReplaceAll(s, CRLF, "\n") == s
  {
    if s != "" {
      assert !IsPrefix(CRLF, s) by { if |s| >= 2 { assert s[..2][1] == s[1]; } }
      NoCrlf(s[1..]);
      assert [s[0]] + s[1..] == s;
    }
  }

  lemma CrAlone(lines: seq<string>)
    requires AllUnbroken(lines)
    ensures ReplaceAll(JoinWith(lines, "\r"), CRLF, "\n") == JoinWith(lines, "\r")
  {
    FreeOfBreaks(lines);
    JoinFree(lines, "\r", '\n');
    NoCrlf(JoinWith(lines, "\r"));
  }

  /** Whatever the lines, they parse alike whichever of the three ends they have. */
  lemma EndingsDoNotMatter(lines: seq<string>)
    requires AllUnbroken(lines)
    ensures Parse(JoinWith(lines, "\n")) == Parse(JoinWith(lines, "\r")) == Parse(JoinWith(lines, CRLF))
    ensures Parse(JoinWith(lines, CRLF)) == ParseLines(START, lines + [""])
  {
    EndsBecomeCrlf(lines);
    JoinIsJoinWith(lines);
    LinesOfJoined(lines);
    hide NormalizeLineEndings, ParseLines, Lines;
  }

  lemma ColonAt(before: string, after: string)
    requires ':' !in before
    ensures IndexOf(before + ":" + after, ':') == |before|
  {
    var line := before + ":" + after;
    assert line[|before|] == ':' && forall j :: 0 <= j < |before| ==> line[j] == before[j];
  }

  /** A header line in general: the name is what is before the first colon, trimmed; the value
      what is after it, less one space; and it is accepted exactly when the name is valid and
      new to the section up to case. */
  lemma HeaderLine(s: Attrs, before: string, after: string)
    requires ':' !in before
    ensures var name, r := TrimSpace(before), Process(s, before + ":" + after);
            && (r.Ok? <==> ValidName(name) && forall i :: 0 <= i < |s| ==> !EqualFold(s[i].name, name))
            && (r.Ok? ==> r.value == s + [Attr(name, if after != "" && after[0] == ' ' then after[1..] else after)])
  {
    ColonAt(before, after);
    var line := before + ":" + after;
    assert line[..|before|] == before && line[|before| + 1..] == after;
    assert IsPrefix(" ", after) <==> after != "" && after[0] == ' ';
  }

  /** A line without a colon is no header, unless it is blank. */
  lemma NoHeader(s: Attrs, line: string)
    requires ':' !in line
    ensures Process(s, line) == if line == "" then Ok(s) else Err
  {
  }

  /** Text that ends in the middle of a line that is no continuation is an error. */
  lemma {:induction false} EndsUnfinished(p: Parser, lines: seq<string>, last: string)
    requires last != "" && last[0] != ' '
    ensures ParseLines(p, lines + [last]) == Err
    decreases |lines|
  {
    hide Process, Close;
    if lines == [] {
      assert lines + [last] == [last];
    } else {
      assert (lines + [last])[1..] == lines[1..] + [last];
      var p' := p.(continuation := p.continuation + if lines[0] == "" then "" else lines[0][1..]);
      EndsUnfinished(p', lines[1..], last);
      match Process(p.current, p.line + p.continuation)
      case Err =>
      case Ok(s) =>
        var q := p.(current := s, line := lines[0], continuation := "");
        EndsUnfinished(q, lines[1..], last);
        EndsUnfinished(Close(q), lines[1..], last);
    }
  }

  lemma LineThen(s: string, rest: string)
    requires Unbroken(s)
    ensures Lines(s + CRLF + rest) == [s] + Lines(rest)
  {
    var text := s + CRLF + rest;
    assert text[|s|] == '\r' && text[|s| + 1] == '\n' && forall j :: 0 <= j < |s| ==> text[j] == s[j];
    assert IndexOf(text, '\n') == |s| + 1;
    assert text[..|s| + 2] == s + CRLF && text[|s| + 2..] == rest;
    TrimBreaksOfLine(s);
  }

  lemma {:induction false} LinesThen(lines: seq<string>, last: string)
    requires AllUnbroken(lines) && Unbroken(last)
    ensures Lines(Join(lines) + last) == lines + [last]
    decreases |lines|
  {
    if lines == [] {
      assert "" + last == last && lines + [last] == [last];
      assert IndexOf(last, '\n') == |last|;
      TrimBreaksOfLine(last);
    } else {
      assert Unbroken(lines[0]) && AllUnbroken(lines[1..]);
      hide Lines, Unbroken;
      assert Join(lines) + last == lines[0] + CRLF + (Join(lines[1..]) + last);
      LineThen(lines[0], Join(lines[1..]) + last);
      LinesThen(lines[1..], last);
      assert [lines[0]] + (lines[1..] + [last]) == lines + [last];
    }
  }

  lemma NormalizedThen(lines: seq<string>, last: string)
    requires AllUnbroken(lines) && Unbroken(last)
    ensures NormalizeLineEndings(Join(lines) + last) == Join(lines) + last
  {
    FreeOfBreaks(lines + [last]);
    assert forall i :: 0 <= i < |lines| ==> (lines + [last])[i] == lines[i];
    assert (lines + [last])[|lines|] == last;
    JoinIsJoinWith(lines);
    EndsThen(lines, last, CRLF, "\n");
    JoinFree(lines, "\n", '\r');
    var lf := JoinWith(lines, "\n") + last;
    assert Free(lf, '\r');
    Untouched(lf, "\r", "\n");
    EndsThen(lines, last, "\n", CRLF);
    hide ReplaceAll;
  }

  lemma EndThen(s: string, rest: string, what: string, by_: string)
    requires what != "" && Free(s, what[0])
    ensures ReplaceAll(s + what + rest, what, by_) == s + by_ + ReplaceAll(rest, what, by_)
  {
    ReplaceSkips(s, what + rest, what, by_);
    assert s + what + rest == s + (what + rest);
    assert (what + rest)[..|what|] == what && (what + rest)[|what|..] == rest;
  }

  /** Replacing the line ends leaves an unfinished last line alone. */
  lemma {:induction false} EndsThen(lines: seq<string>, last: string, what: string, by_: string)
    requires what != "" && Free(last, what[0]) && forall i :: 0 <= i < |lines| ==> Free(lines[i], what[0])
    ensures ReplaceAll(JoinWith(lines, what) + last, what, by_) == JoinWith(lines, by_) + last
    decreases |lines|
  {
    hide ReplaceAll, Free;
    if lines == [] {
      assert "" + last == last;
      Untouched(last, what, by_);
    } else {
      assert JoinWith(lines, what) + last == lines[0] + what + (JoinWith(lines[1..], what) + last);
      EndThen(lines[0], JoinWith(lines[1..], what) + last, what, by_);
      EndsThen(lines[1..], last, what, by_);
      assert lines[0] + by_ + (JoinWith(lines[1..], by_) + last) == JoinWith(lines, by_) + last;
    }
  }

  /** A manifest that does not end its last line is refused. */
  lemma MissingNewline(lines: seq<string>, last: string)
    requires AllUnbroken(lines) && Unbroken(last) && last != "" && last[0] != ' '
    ensures Parse(Join(lines) + last) == Err
  {
    NormalizedThen(lines, last);
    LinesThen(lines, last);
    EndsUnfinished(START, lines, last);
  }
}
