/** Printing and parsing a manifest are inverse, and a parsed manifest is well formed. */
module ManifestProofs {
  import opened ManifestText

  // ----- which manifests the format can hold -----

  predicate Unbroken(s: string) {
    forall i :: 0 <= i < |s| ==> !LineBreak(s[i])
  }

  /** Valid names, no two equal up to case, and values free of line breaks. */
  predicate GoodSection(s: Attrs) {
    && (forall i :: 0 <= i < |s| ==> ValidName(s[i].name) && Unbroken(s[i].value))
    && (forall i, j :: 0 <= i < j < |s| ==> !EqualFold(s[i].name, s[j].name))
  }

  predicate GoodManifest(m: Manifest) {
    GoodSection(m.main) && forall i :: 0 <= i < |m.entries| ==> GoodSection(m.entries[i]) && m.entries[i] != []
  }

  // ----- folding -----

  /** A line and its continuations, joined. */
  function Unfold(lines: seq<string>): string
    requires lines != []
  {
    lines[0] + Continuations(lines[1..])
  }

  function Continuations(lines: seq<string>): string {
    if lines == [] then "" else (if lines[0] == "" then "" else lines[0][1..]) + Continuations(lines[1..])
  }

  /** Folding loses nothing, breaks only into lines of at most 72 bytes, and every
      line after the first is a continuation. */
  lemma {:induction false} FoldUnfolds(s: string, base: nat)
    requires s != ""
    ensures var lines := FoldLines(s, base);
            && Unfold(lines) == s
            && lines[0] != "" && lines[0][0] == s[0]
            && (forall i :: 0 <= i < |lines| ==> |lines[i]| <= 72)
            && (forall i :: 1 <= i < |lines| ==> IsPrefix(" ", lines[i]))
    decreases |s|
  {
    var lines := FoldLines(s, base);
    if |s| > 72 {
      var i := SplitIndex(s, base);
      var rest := " " + s[i + 1..];
      FoldUnfolds(rest, 0);
      var tail := FoldLines(rest, 0);
      assert lines == [s[..i + 1]] + tail;
      assert lines[1..] == tail;
      assert tail[0] != "" && tail[0][0] == ' ';
      assert rest == tail[0] + Continuations(tail[1..]);
      assert rest[1..] == tail[0][1..] + Continuations(tail[1..]);
      assert Continuations(tail) == s[i + 1..];
      forall j | 1 <= j < |lines| ensures IsPrefix(" ", lines[j]) {
        assert lines[j] == tail[j - 1];
      }
    } else {
      assert lines[1..] == [];
    }
  }

  // ----- where lines are folded -----

  /** k is the last space past base among the first 72 bytes, or 71 if there is none. */
  ghost predicate CutsAt(s: string, base: nat, k: nat)
    requires |s| > 72
  {
    if exists i :: base < i <= 71 && s[i] == ' ' then
      base < k <= 71 && s[k] == ' ' && forall i :: k < i <= 71 ==> s[i] != ' '
    else
      k == 71
  }

  /** Each line but the last ends at the cut of what was left, which goes on after a space. */
  ghost predicate FoldsAtSpaces(s: string, base: nat, lines: seq<string>)
    decreases |lines|
  {
    && lines != []
    && if |s| <= 72 then lines == [s]
       else
         && lines[0] != "" && lines[0] <= s && CutsAt(s, base, |lines[0]| - 1)
         && FoldsAtSpaces(" " + s[|lines[0]|..], 0, lines[1..])
  }

  lemma {:induction false} FoundSpace(s: string, idx: nat, base: nat)
    requires idx < |s|
    ensures var k := FindSpace(s, idx, base);
            && (forall i :: k < i <= idx ==> s[i] != ' ')
            && (base < k ==> s[k] == ' ') && (idx < base ==> k == idx) && (base <= idx ==> base <= k)
  {
    if idx > base && s[idx] != ' ' { FoundSpace(s, idx - 1, base); }
  }

  lemma CutIsLastSpace(s: string, base: nat)
    requires |s| > 72
    ensures CutsAt(s, base, SplitIndex(s, base))
  {
    FoundSpace(s, 71, base);
  }

  /** Every line of an attribute that is not its last is cut at the last space past the name
      that fits in 72 bytes, and in the middle of a word only where there is none. */
  lemma {:induction false} LinesFoldAtSpaces(s: string, base: nat)
    ensures FoldsAtSpaces(s, base, FoldLines(s, base))
    decreases |s|
  {
    if |s| > 72 {
      var i := SplitIndex(s, base);
      CutIsLastSpace(s, base);
      LinesFoldAtSpaces(" " + s[i + 1..], 0);
      assert FoldLines(s, base)[1..] == FoldLines(" " + s[i + 1..], 0);
      assert |s[..i + 1]| - 1 == i;
    }
  }

  /** No other lines are folded so. */
  lemma {:induction false} OneFolding(s: string, base: nat, a: seq<string>, b: seq<string>)
    requires FoldsAtSpaces(s, base, a) && FoldsAtSpaces(s, base, b)
    ensures a == b
    decreases |a|
  {
    if |s| > 72 {
      SameCut(s, base, |a[0]| - 1, |b[0]| - 1);
      assert a[0] == b[0];
      OneFolding(" " + s[|a[0]|..], 0, a[1..], b[1..]);
      assert a == [a[0]] + a[1..] && b == [b[0]] + b[1..];
    }
  }

  lemma SameCut(s: string, base: nat, k: nat, l: nat)
    requires |s| > 72 && CutsAt(s, base, k) && CutsAt(s, base, l)
    ensures k == l
  {
  }

  lemma {:induction false} FoldUnbroken(s: string, base: nat)
    requires Unbroken(s)
    ensures forall i :: 0 <= i < |FoldLines(s, base)| ==> Unbroken(FoldLines(s, base)[i])
    decreases |s|
  {
    if |s| > 72 {
      FoldUnbroken(" " + s[SplitIndex(s, base) + 1..], 0);
    }
  }

  // ----- feeding a printed section to the parser -----

  /** The section once the line being collected is processed. */
  function Flush(p: Parser): Result<Attrs> {
    Process(p.current, p.line + p.continuation)
  }

  ghost predicate AllContinue(lines: seq<string>) {
    forall i :: 0 <= i < |lines| ==> IsPrefix(" ", lines[i])
  }

  lemma FeedContinuation(p: Parser, line: string, rest: seq<string>)
    requires p.line != "" && rest != [] && IsPrefix(" ", line)
    ensures ParseLines(p, [line] + rest) == ParseLines(p.(continuation := p.continuation + line[1..]), rest)
  {
    hide Process, Flush;
    assert ([line] + rest)[1..] == rest;
  }

  /** Continuation lines only lengthen the line being collected. */
  lemma {:induction false} FeedContinuations(p: Parser, conts: seq<string>, rest: seq<string>)
    requires p.line != "" && rest != [] && AllContinue(conts)
    ensures ParseLines(p, conts + rest) == ParseLines(p.(continuation := p.continuation + Continuations(conts)), rest)
    decreases |conts|
  {
    hide ParseLines;
    if conts == [] {
      assert conts + rest == rest;
      assert p.continuation + "" == p.continuation;
    } else {
      var p' := p.(continuation := p.continuation + conts[0][1..]);
      assert conts + rest == [conts[0]] + (conts[1..] + rest);
      FeedContinuation(p, conts[0], conts[1..] + rest);
      FeedContinuations(p', conts[1..], rest);
      assert p'.continuation + Continuations(conts[1..]) == p.continuation + Continuations(conts);
    }
  }

  /** A line that is neither blank nor a continuation flushes what was collected. */
  lemma FeedLine(p: Parser, line: string, rest: seq<string>)
    requires line != "" && line[0] != ' ' && Flush(p).Ok? && rest != []
    ensures ParseLines(p, [line] + rest)
         == ParseLines(p.(current := Flush(p).value, line := line, continuation := ""), rest)
  {
    hide Process;
    assert ([line] + rest)[1..] == rest;
  }

  lemma AttrStarts(a: Attr)
    requires ValidName(a.name)
    ensures var lines := AttrLines(a);
            && lines != [] && lines[0] != "" && lines[0][0] != ' '
            && lines[0] + Continuations(lines[1..]) == a.name + ": " + a.value
            && AllContinue(lines[1..])
  {
    var text := a.name + ": " + a.value;
    assert text[0] == a.name[0] && NameChar(a.name[0]);
    FoldUnfolds(text, |a.name| + 2);
    hide FoldLines;
  }

  /** The lines of one attribute flush what was collected and leave the attribute collected. */
  lemma FeedAttr(p: Parser, a: Attr, rest: seq<string>) returns (p': Parser)
    requires ValidName(a.name) && Flush(p).Ok? && rest != []
    ensures ParseLines(p, AttrLines(a) + rest) == ParseLines(p', rest)
    ensures p'.line + p'.continuation == a.name + ": " + a.value
    ensures p' == p.(current := Flush(p).value, line := p'.line, continuation := p'.continuation)
  {
    hide ParseLines, AttrLines, Process, Continuations, ValidName, Flush, AllContinue;
    AttrStarts(a);
    var lines := AttrLines(a);
    assert lines + rest == [lines[0]] + (lines[1..] + rest);
    FeedLines(p, lines[0], lines[1..], rest);
    p' := p.(current := Flush(p).value, line := lines[0], continuation := Continuations(lines[1..]));
  }

  lemma FeedLines(p: Parser, first: string, conts: seq<string>, rest: seq<string>)
    requires first != "" && first[0] != ' ' && Flush(p).Ok? && rest != []
    requires AllContinue(conts)
    ensures ParseLines(p, [first] + (conts + rest))
         == ParseLines(p.(current := Flush(p).value, line := first, continuation := Continuations(conts)), rest)
  {
    hide ParseLines, Process, Flush, Continuations, AllContinue;
    var begun := p.(current := Flush(p).value, line := first, continuation := "");
    FeedLine(p, first, conts + rest);
    FeedContinuations(begun, conts, rest);
    assert "" + Continuations(conts) == Continuations(conts);
  }

  ghost predicate NoneOf(s: Attrs, t: Attrs) {
    forall i, j :: 0 <= i < |s| && 0 <= j < |t| ==> !EqualFold(s[i].name, t[j].name)
  }

  lemma SectionTail(done: Attrs, s: Attrs)
    requires s != [] && GoodSection(s) && NoneOf(done, s)
    ensures ValidName(s[0].name) && !Has(done, s[0].name)
    ensures GoodSection(s[1..]) && NoneOf(done + [s[0]], s[1..])
  {}

  lemma {:induction false} FeedSection(p: Parser, s: Attrs, rest: seq<string>) returns (p': Parser)
    requires Flush(p).Ok? && rest != []
    requires GoodSection(s) && NoneOf(Flush(p).value, s)
    ensures ParseLines(p, SectionLines(s) + rest) == ParseLines(p', rest)
    ensures Flush(p') == Ok(Flush(p).value + s)
    ensures p'.main == p.main && p'.entries == p.entries && p'.inMain == p.inMain
    decreases |s|
  {
    hide Process, ParseLines, AttrLines;
    var done := Flush(p).value;
    if s == [] {
      p' := p;
      assert SectionLines(s) + rest == rest;
      assert done + s == done;
    } else {
      var more := SectionLines(s[1..]) + rest;
      assert SectionLines(s) + rest == AttrLines(s[0]) + more;
      SectionTail(done, s);
      var q := FeedAttr(p, s[0], more);
      FlushAttr(q, done, s[0]);
      p' := FeedSection(q, s[1..], rest);
      assert done + [s[0]] + s[1..] == done + s;
    }
  }

  lemma FlushAttr(p: Parser, done: Attrs, a: Attr)
    requires p.current == done && p.line + p.continuation == a.name + ": " + a.value
    requires ValidName(a.name) && !Has(done, a.name)
    ensures Flush(p) == Ok(done + [a])
  {
    ProcessAttr(done, a);
  }

  /** A blank line closes the section collected so far. */
  lemma FeedBlank(p: Parser, rest: seq<string>)
    requires Flush(p).Ok? && rest != []
    ensures ParseLines(p, [""] + rest)
         == ParseLines(Close(p.(current := Flush(p).value, line := "", continuation := "")), rest)
  {
    hide Process;
    assert ([""] + rest)[1..] == rest;
  }

  /** The parser after a blank line ends the section collected so far. */
  function Closed(p: Parser): Parser
    requires Flush(p).Ok?
  {
    Close(p.(current := Flush(p).value, line := "", continuation := ""))
  }

  lemma FeedEntry(p: Parser, s: Attrs, rest: seq<string>) returns (q: Parser)
    requires Flush(p).Ok? && GoodSection(s) && s != [] && rest != []
    ensures ParseLines(p, [""] + SectionLines(s) + rest) == ParseLines(q, rest)
    ensures Flush(q).Ok? && Closed(q).entries == Closed(p).entries + [s] && Closed(q).main == Closed(p).main
  {
    assert [""] + SectionLines(s) + rest == [""] + (SectionLines(s) + rest);
    FeedBlank(p, SectionLines(s) + rest);
    q := FeedSection(Closed(p), s, rest);
    assert [] + s == s;
  }

  /** The end of the file, right after a blank line. */
  lemma FeedEnd(p: Parser)
    requires p.line == "" && p.continuation == "" && p.current == [] && !p.inMain
    ensures ParseLines(p, [""]) == Ok(Manifest(p.main, p.entries))
  {}

  lemma {:induction false} FeedEntries(p: Parser, todo: seq<Attrs>)
    requires Flush(p).Ok?
    requires forall i :: 0 <= i < |todo| ==> GoodSection(todo[i]) && todo[i] != []
    ensures ParseLines(p, EntriesLines(todo) + ["", ""]) == Ok(Manifest(Closed(p).main, Closed(p).entries + todo))
    decreases |todo|
  {
    hide Process, ParseLines, SectionLines;
    if todo == [] {
      assert EntriesLines(todo) + ["", ""] == [""] + [""];
      FeedBlank(p, [""]);
      FeedEnd(Closed(p));
      assert Closed(p).entries + todo == Closed(p).entries;
    } else {
      var more := EntriesLines(todo[1..]) + ["", ""];
      assert EntriesLines(todo) + ["", ""] == [""] + SectionLines(todo[0]) + more;
      var q := FeedEntry(p, todo[0], more);
      FeedEntries(q, todo[1..]);
      assert Closed(p).entries + [todo[0]] + todo[1..] == Closed(p).entries + todo;
    }
  }

  lemma ParsePrintedLines(m: Manifest)
    requires GoodManifest(m)
    ensures ParseLines(START, ManifestLines(m) + [""]) == Ok(m)
  {
    var more := EntriesLines(m.entries) + ["", ""];
    assert [""] + [""] == ["", ""];
    assert ManifestLines(m) + [""] == SectionLines(m.main) + more;
    var q := FeedSection(START, m.main, more);
    assert [] + m.main == m.main;
    FeedEntries(q, m.entries);
    assert [] + m.entries == m.entries;
  }

  // ----- line endings of printed text -----

  ghost predicate Free(s: string, c: char) {
    forall i :: 0 <= i < |s| ==> s[i] != c
  }

  lemma {:induction false} ReplaceSkips(s: string, rest: string, what: string, by_: string)
    requires what != "" && Free(s, what[0])
    ensures ReplaceAll(s + rest, what, by_) == s + ReplaceAll(rest, what, by_)
    decreases |s|
  {
    if s == "" {
      assert s + rest == rest;
    } else {
      assert (s + rest)[1..] == s[1..] + rest;
      ReplaceSkips(s[1..], rest, what, by_);
    }
  }

  function JoinWith(lines: seq<string>, end: string): string {
    if lines == [] then "" else lines[0] + end + JoinWith(lines[1..], end)
  }

  /** Replacing the line end of unbroken lines. */
  lemma {:induction false} ReplaceEnds(lines: seq<string>, what: string, by_: string)
    requires what != "" && forall i :: 0 <= i < |lines| ==> Free(lines[i], what[0])
    ensures ReplaceAll(JoinWith(lines, what), what, by_) == JoinWith(lines, by_)
    decreases |lines|
  {
    if lines != [] {
      var rest := JoinWith(lines[1..], what);
      assert JoinWith(lines, what) == lines[0] + (what + rest);
      ReplaceSkips(lines[0], what + rest, what, by_);
      assert (what + rest)[..|what|] == what && (what + rest)[|what|..] == rest;
      ReplaceEnds(lines[1..], what, by_);
      assert lines[0] + (by_ + JoinWith(lines[1..], by_)) == JoinWith(lines, by_);
    }
  }

  lemma {:induction false} JoinFree(lines: seq<string>, end: string, c: char)
    requires Free(end, c) && forall i :: 0 <= i < |lines| ==> Free(lines[i], c)
    ensures Free(JoinWith(lines, end), c)
    decreases |lines|
  {
    if lines != [] {
      JoinFree(lines[1..], end, c);
    }
  }

  lemma {:induction false} JoinIsJoinWith(lines: seq<string>)
    ensures Join(lines) == JoinWith(lines, CRLF)
    decreases |lines|
  {
    if lines != [] {
      JoinIsJoinWith(lines[1..]);
    }
  }

  lemma NormalizeJoined(lines: seq<string>)
    requires forall i :: 0 <= i < |lines| ==> Unbroken(lines[i])
    ensures NormalizeLineEndings(Join(lines)) == Join(lines)
  {
    JoinIsJoinWith(lines);
    forall i | 0 <= i < |lines| ensures Free(lines[i], '\r') && Free(lines[i], '\n') {
      assert Unbroken(lines[i]);
    }
    ReplaceEnds(lines, CRLF, "\n");
    var lf := JoinWith(lines, "\n");
    JoinFree(lines, "\n", '\r');
    ReplaceSkips(lf, "", "\r", "\n");
    assert lf + "" == lf;
    ReplaceEnds(lines, "\n", CRLF);
  }

  lemma {:induction false} TrimBreaksOfLine(s: string)
    requires Unbroken(s)
    ensures TrimBreaks(s) == s && TrimBreaks(s + CRLF) == s && TrimBreaks(s + "\n") == s
  {
    var cr := s + "\r";
    assert (s + CRLF)[..|s| + 1] == cr && cr[..|s|] == s;
    assert (s + "\n")[..|s|] == s;
    assert TrimBreaks(s) == s;
    assert TrimBreaks(cr) == TrimBreaks(s);
  }

  lemma {:induction false} LinesOfJoined(lines: seq<string>)
    requires forall i :: 0 <= i < |lines| ==> Unbroken(lines[i])
    ensures Lines(Join(lines)) == lines + [""]
    decreases |lines|
  {
    if lines != [] {
      var text := Join(lines);
      var s, rest := lines[0], Join(lines[1..]);
      assert Unbroken(s);
      assert text[|s| + 1] == '\n';
      assert forall j :: 0 <= j < |s| ==> text[j] == s[j];
      assert text[|s|] == '\r';
      assert IndexOf(text, '\n') == |s| + 1;
      assert text[..|s| + 2] == s + CRLF && text[|s| + 2..] == rest;
      TrimBreaksOfLine(s);
      LinesOfJoined(lines[1..]);
      assert [s] + (lines[1..] + [""]) == lines + [""];
    }
  }

  lemma {:induction false} SectionLinesUnbroken(s: Attrs)
    requires GoodSection(s)
    ensures forall i :: 0 <= i < |SectionLines(s)| ==> Unbroken(SectionLines(s)[i]) && |SectionLines(s)[i]| <= 72
    decreases |s|
  {
    if s != [] {
      var text := s[0].name + ": " + s[0].value;
      forall i | 0 <= i < |text| ensures !LineBreak(text[i]) {
        if i < |s[0].name| { assert text[i] == s[0].name[i] && NameChar(s[0].name[i]); }
        else if i >= |s[0].name| + 2 { assert text[i] == s[0].value[i - |s[0].name| - 2]; }
      }
      FoldUnbroken(text, |s[0].name| + 2);
      FoldUnfolds(text, |s[0].name| + 2);
      SectionLinesUnbroken(s[1..]);
    }
  }

  lemma {:induction false} EntriesLinesUnbroken(entries: seq<Attrs>)
    requires forall i :: 0 <= i < |entries| ==> GoodSection(entries[i])
    ensures forall i :: 0 <= i < |EntriesLines(entries)| ==> Unbroken(EntriesLines(entries)[i])
                                                             && |EntriesLines(entries)[i]| <= 72
    decreases |entries|
  {
    if entries != [] {
      SectionLinesUnbroken(entries[0]);
      EntriesLinesUnbroken(entries[1..]);
    }
  }

  /** Every line printed has at most 72 bytes before its CRLF and no break inside. */
  lemma PrintedLinesFit(m: Manifest)
    requires GoodManifest(m)
    ensures Print(m) == Join(ManifestLines(m))
    ensures forall i :: 0 <= i < |ManifestLines(m)| ==> Unbroken(ManifestLines(m)[i]) && |ManifestLines(m)[i]| <= 72
  {
    SectionLinesUnbroken(m.main);
    EntriesLinesUnbroken(m.entries);
  }

  /** Round trip: parsing a printed manifest gives it back, sections and attributes in order. */
  lemma ParsePrint(m: Manifest)
    requires GoodManifest(m)
    ensures Parse(Print(m)) == Ok(m)
  {
    PrintedLinesFit(m);
    NormalizeJoined(ManifestLines(m));
    LinesOfJoined(ManifestLines(m));
    ParsePrintedLines(m);
  }

  // ----- what parsing yields -----

  ghost predicate GoodParser(p: Parser) {
    && GoodSection(p.main) && GoodSection(p.current)
    && (forall i :: 0 <= i < |p.entries| ==> GoodSection(p.entries[i]) && p.entries[i] != [])
    && Unbroken(p.line) && Unbroken(p.continuation)
  }

  lemma ProcessKeepsGood(s: Attrs, line: string)
    requires GoodSection(s) && Unbroken(line)
    ensures Process(s, line).Ok? ==> GoodSection(Process(s, line).value)
  {
    if line != "" && Process(s, line).Ok? {
      var s' := Process(s, line).value;
      if s' != s {
        var a := s'[|s|];
        assert s' == s + [a] && ValidName(a.name) && !Has(s, a.name);
        forall i | 0 <= i < |a.value| ensures !LineBreak(a.value[i]) {
          assert a.value[i] == line[|line| - |a.value| + i];
        }
      }
    }
  }

  lemma {:induction false} ParseLinesGood(p: Parser, lines: seq<string>)
    requires lines != [] && GoodParser(p)
    requires forall i :: 0 <= i < |lines| ==> Unbroken(lines[i])
    ensures ParseLines(p, lines).Ok? ==> GoodManifest(ParseLines(p, lines).value)
    decreases |lines|, |lines[0]|
  {
    var line, eof := lines[0], |lines| == 1;
    assert Unbroken(line);
    if IsPrefix(" ", line) {
      if p.line != "" {
        var p' := p.(continuation := p.continuation + line[1..]);
        ParseLinesGood(p', if eof then [""] else lines[1..]);
      }
    } else {
      ProcessKeepsGood(p.current, p.line + p.continuation);
      match Process(p.current, p.line + p.continuation)
      case Err =>
      case Ok(s) =>
        var p' := p.(current := s, line := line, continuation := "");
        assert GoodParser(p') && GoodParser(Close(p'));
        if !eof {
          ParseLinesGood(if line == "" then Close(p') else p', lines[1..]);
        }
    }
  }

  /** Every CR is the start of a CRLF. */
  ghost predicate OnlyCrLf(s: string) {
    forall i :: 0 <= i < |s| && s[i] == '\r' ==> LfAt(s, i + 1)
  }

  ghost predicate LfAt(s: string, i: nat) { i < |s| && s[i] == '\n' }

  lemma {:induction false} CrReplaced(s: string)
    ensures Free(ReplaceAll(s, "\r", "\n"), '\r')
    decreases |s|
  {
    if s != "" {
      CrReplaced(s[1..]);
    }
  }

  lemma {:induction false} LfExpanded(s: string)
    requires Free(s, '\r')
    ensures OnlyCrLf(ReplaceAll(s, "\n", CRLF))
    decreases |s|
  {
    if s != "" {
      LfExpanded(s[1..]);
      var t, t' := ReplaceAll(s, "\n", CRLF), ReplaceAll(s[1..], "\n", CRLF);
      if s[0] == '\n' {
        assert IsPrefix("\n", s);
        assert t == CRLF + t';
        forall i | 0 <= i < |t| && t[i] == '\r' ensures LfAt(t, i + 1) {
          if i >= 2 { assert t'[i - 2] == '\r'; }
        }
      } else {
        assert t == [s[0]] + t';
        forall i | 0 <= i < |t| && t[i] == '\r' ensures LfAt(t, i + 1) {
          if i >= 1 { assert t'[i - 1] == '\r'; }
        }
      }
    }
  }

  lemma NoEarlyCr(s: string, i: nat, j: nat)
    requires OnlyCrLf(s) && i <= |s| && forall k :: 0 <= k < i ==> s[k] != '\n'
    requires j < i && (j + 1 < i || i == |s|)
    ensures s[j] != '\r'
  {}

  /** The text up to a newline, or all of it, is an unbroken line and its end. */
  lemma LineAndEnd(content: string, i: nat) returns (s: string)
    requires OnlyCrLf(content) && i <= |content| && forall k :: 0 <= k < i ==> content[k] != '\n'
    requires i < |content| ==> content[i] == '\n'
    ensures Unbroken(s)
    ensures i == |content| ==> content == s
    ensures i < |content| ==> content[..i + 1] == s + CRLF || content[..i + 1] == s + "\n"
  {
    var cr := i < |content| && i > 0 && content[i - 1] == '\r';
    s := content[..if cr then i - 1 else i];
    forall j | 0 <= j < |s| ensures !LineBreak(s[j]) {
      if i == |content| || j + 1 < i { NoEarlyCr(content, i, j); }
    }
  }

  lemma {:induction false} LinesUnbroken(content: string)
    requires OnlyCrLf(content)
    ensures forall i :: 0 <= i < |Lines(content)| ==> Unbroken(Lines(content)[i])
    decreases |content|
  {
    hide TrimBreaks;
    var i := IndexOf(content, '\n');
    var s := LineAndEnd(content, i);
    TrimBreaksOfLine(s);
    if i < |content| {
      var rest := content[i + 1..];
      forall j | 0 <= j < |rest| && rest[j] == '\r' ensures LfAt(rest, j + 1) {
        assert content[i + 1 + j] == '\r';
      }
      LinesUnbroken(rest);
    }
  }

  /** Whatever the bytes, a successful parse yields a manifest the format can hold. */
  lemma ParsedIsGood(data: string)
    ensures Parse(data).Ok? ==> GoodManifest(Parse(data).value)
  {
    var lf := ReplaceAll(ReplaceAll(data, CRLF, "\n"), "\r", "\n");
    CrReplaced(ReplaceAll(data, CRLF, "\n"));
    LfExpanded(lf);
    LinesUnbroken(NormalizeLineEndings(data));
    ParseLinesGood(START, Lines(NormalizeLineEndings(data)));
  }

  /** Printing what was parsed is a fixed point: parsing and printing again changes nothing. */
  lemma PrintParseIdempotent(data: string)
    requires Parse(data).Ok?
    ensures Parse(Print(Parse(data).value)) == Parse(data)
  {
    ParsedIsGood(data);
    ParsePrint(Parse(data).value);
  }
}
