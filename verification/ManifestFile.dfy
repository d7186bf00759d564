/** Sections and manifests as the code keeps them: objects edited in place
    (pkg/stabilize/manifest.go:20-246). */
module ManifestFile {
  import opened Texts
  import opened ManifestText
  import opened ManifestProofs

  /** Set on the list of attributes: replace the value under the name already there, or append. */
  function SetAttr(s: Attrs, name: string, value: string): Attrs {
    if s == [] then [Attr(name, value)]
    else if EqualFold(s[0].name, name) then [Attr(s[0].name, value)] + s[1..]
    else [s[0]] + SetAttr(s[1..], name, value)
  }

  /** Delete on the list: drop the first attribute of that name. */
  function DeleteAttr(s: Attrs, name: string): Attrs {
    if s == [] then []
    else if EqualFold(s[0].name, name) then s[1..]
    else [s[0]] + DeleteAttr(s[1..], name)
  }

  ghost predicate DistinctUpToCase(s: Attrs) {
    forall i, j :: 0 <= i < j < |s| ==> !EqualFold(s[i].name, s[j].name)
  }

  function ViewOf(names: seq<string>, attributes: map<string, string>): Attrs {
    seq(|names|, i requires 0 <= i < |names| => Attr(names[i], if names[i] in attributes then attributes[names[i]]
                                                               else ""))
  }

  lemma {:induction false} SetAt(s: Attrs, name: string, value: string, k: nat)
    requires k <= |s| && (forall i :: 0 <= i < k ==> !EqualFold(s[i].name, name))
    requires k < |s| ==> EqualFold(s[k].name, name)
    ensures SetAttr(s, name, value) == if k < |s| then s[k := Attr(s[k].name, value)] else s + [Attr(name, value)]
    decreases |s|
  {
    if k > 0 {
      SetAt(s[1..], name, value, k - 1);
    }
  }

  lemma {:induction false} DeleteAt(s: Attrs, name: string, k: nat)
    requires k <= |s| && (forall i :: 0 <= i < k ==> !EqualFold(s[i].name, name))
    requires k < |s| ==> EqualFold(s[k].name, name)
    ensures DeleteAttr(s, name) == if k < |s| then s[..k] + s[k + 1..] else s
    decreases |s|
  {
    if k > 0 {
      DeleteAt(s[1..], name, k - 1);
      if k < |s| {
        assert s[1..][..k - 1] == s[1..k] && s[1..][k..] == s[k + 1..];
        assert s[..k] == [s[0]] + s[1..k];
      }
    }
  }

  lemma FoldReflexive(name: string)
    ensures EqualFold(name, name)
  {}

  lemma ViewSet(names: seq<string>, attributes: map<string, string>, k: nat, value: string)
    requires k < |names| && forall i, j :: 0 <= i < j < |names| ==> !EqualFold(names[i], names[j])
    ensures ViewOf(names, attributes[names[k] := value]) == ViewOf(names, attributes)[k := Attr(names[k], value)]
  {
    forall i | 0 <= i < |names| && names[i] == names[k] ensures i == k {
      FoldReflexive(names[k]);
    }
  }

  ghost predicate Paired(names: seq<string>, attributes: map<string, string>) {
    && (forall i :: 0 <= i < |names| ==> names[i] in attributes)
    && (forall i, j :: 0 <= i < j < |names| ==> !EqualFold(names[i], names[j]))
    && (forall n :: n in attributes ==> n in names)
  }

  lemma OnlyAt(names: seq<string>, k: nat)
    requires k < |names| && forall i, j :: 0 <= i < j < |names| ==> !EqualFold(names[i], names[j])
    ensures forall i :: 0 <= i < |names| && names[i] == names[k] ==> i == k
  {
    FoldReflexive(names[k]);
  }

  lemma ViewDelete(names: seq<string>, attributes: map<string, string>, k: nat)
    requires k < |names| && Paired(names, attributes)
    ensures var v := ViewOf(names, attributes);
            ViewOf(names[..k] + names[k + 1..], attributes - {names[k]}) == v[..k] + v[k + 1..]
  {
    OnlyAt(names, k);
  }

  lemma PairedDelete(names: seq<string>, attributes: map<string, string>, k: nat)
    requires k < |names| && Paired(names, attributes)
    ensures Paired(names[..k] + names[k + 1..], attributes - {names[k]})
  {
    OnlyAt(names, k);
    var names' := names[..k] + names[k + 1..];
    assert forall i :: 0 <= i < |names'| ==> names'[i] == names[if i < k then i else i + 1];
    forall n | n in attributes && n != names[k] ensures n in names' {
      var i :| 0 <= i < |names| && names[i] == n;
      assert names'[if i < k then i else i - 1] == n;
    }
  }

  /** An attribute of that name, up to case, has that value. */
  ghost predicate Holds(s: Attrs, name: string, value: string) {
    exists i :: 0 <= i < |s| && EqualFold(s[i].name, name) && s[i].value == value
  }

  class Section {
    var names: seq<string>
    var attributes: map<string, string>

    ghost predicate Valid()
      reads this
    {
      Paired(names, attributes)
    }

    function View(): Attrs
      reads this
    {
      ViewOf(names, attributes)
    }

    constructor ()
      ensures Valid() && View() == []
    {
      names, attributes := [], map[];
    }

    /** attributeName: where the name is, up to case; |names| if nowhere. */
    method Find(name: string) returns (k: nat)
      ensures k <= |names| && (k < |names| ==> EqualFold(names[k], name))
      ensures forall i :: 0 <= i < k ==> !EqualFold(names[i], name)
    {
      k := 0;
      while k < |names| && !EqualFold(names[k], name)
        invariant k <= |names|
        invariant forall i :: 0 <= i < k ==> !EqualFold(names[i], name)
      {
        k := k + 1;
      }
    }

    method Set(name: string, value: string)
      requires Valid()
      modifies this
      ensures Valid() && View() == SetAttr(old(View()), name, value)
    {
      var k := Find(name);
      SetAt(View(), name, value, k);
      if k < |names| {
        ViewSet(names, attributes, k, value);
        attributes := attributes[names[k] := value];
        return;
      }
      Append(name, value);
    }

    method Append(name: string, value: string)
      requires Valid() && forall i :: 0 <= i < |names| ==> !EqualFold(names[i], name)
      modifies this
      ensures Valid() && View() == old(View()) + [Attr(name, value)]
    {
      FoldReflexive(name);
      names := names + [name];
      attributes := attributes[name := value];
    }

    method Get(name: string) returns (value: string, found: bool)
      requires Valid()
      ensures found <==> Has(View(), name)
      ensures found ==> Holds(View(), name, value)
    {
      if name in attributes {
        var i :| 0 <= i < |names| && names[i] == name;
        assert EqualFold(View()[i].name, name) && View()[i].value == attributes[name];
        return attributes[name], true;
      }
      var k := Find(name);
      if k < |names| {
        assert EqualFold(View()[k].name, name) && View()[k].value == attributes[names[k]];
        return attributes[names[k]], true;
      }
      assert forall i :: 0 <= i < |View()| ==> View()[i].name == names[i];
      return "", false;
    }

    method Delete(name: string)
      requires Valid()
      modifies this
      ensures Valid() && View() == DeleteAttr(old(View()), name)
    {
      var k := Find(name);
      DeleteAt(View(), name, k);
      if k < |names| {
        ViewDelete(names, attributes, k);
        PairedDelete(names, attributes, k);
        attributes := attributes - {names[k]};
        names := names[..k] + names[k + 1..];
      }
    }
  }

  class ManifestObject {
    var mainSection: Section
    var entrySections: seq<Section>

    ghost predicate Valid()
      reads this, mainSection, entrySections
    {
      && mainSection.Valid() && mainSection !in entrySections
      && (forall i :: 0 <= i < |entrySections| ==> entrySections[i].Valid())
      && (forall i, j :: 0 <= i < j < |entrySections| ==> entrySections[i] != entrySections[j])
    }

    ghost function View(): Manifest
      reads this, mainSection, entrySections
    {
      Manifest(mainSection.View(), Views(entrySections))
    }

    constructor (main: Section, entries: seq<Section>)
      ensures mainSection == main && entrySections == entries
    {
      mainSection, entrySections := main, entries;
    }
  }

  ghost function Views(sections: seq<Section>): seq<Attrs>
    reads sections
  {
    seq(|sections|, i requires 0 <= i < |sections| reads sections => sections[i].View())
  }

  lemma HasSetAppends(s: Attrs, name: string, value: string)
    requires !Has(s, name)
    ensures SetAttr(s, name, value) == s + [Attr(name, value)]
  {
    SetAt(s, name, value, |s|);
  }

  /** processManifestLine on a section object. */
  method ProcessManifestLine(section: Section, line: string) returns (ok: bool)
    requires section.Valid()
    modifies section
    ensures section.Valid()
    ensures ok <==> Process(old(section.View()), line).Ok?
    ensures ok ==> section.View() == Process(old(section.View()), line).value
  {
    if line == "" {
      return true;
    }
    var colonIdx := IndexOf(line, ':');
    if colonIdx == |line| {
      return false;
    }
    var name := TrimSpace(line[..colonIdx]);
    var value := line[colonIdx + 1..];
    if IsPrefix(" ", value) {
      value := value[1..];
    }
    if !ValidName(name) {
      return false;
    }
    var _, exists_ := section.Get(name);
    if exists_ {
      return false;
    }
    HasSetAppends(section.View(), name, value);
    section.Set(name, value);
    ok := true;
  }

  /** ParseManifest. */
  method ParseManifest(data: string) returns (manifest: ManifestObject?)
    ensures manifest != null <==> Parse(data).Ok?
    ensures manifest != null ==> manifest.Valid() && fresh(manifest) && manifest.View() == Parse(data).value
    ensures manifest != null ==> fresh(manifest.mainSection) && fresh(manifest.entrySections)
  {
    hide ParseLines, Lines, NormalizeLineEndings;
    var content := NormalizeLineEndings(data);
    var ok, main, entries, current := ReadSections(content);
    if !ok {
      return null;
    }
    manifest := new ManifestObject(main, entries);
  }

  /** The loop over the lines. */
  method ReadSections(content: string) returns (ok: bool, main: Section, entries: seq<Section>, current: Section)
    ensures fresh(main) && fresh(current) && fresh(entries) && Separate(main, entries, current)
    ensures ParseLines(START, Lines(content)) == if ok then Ok(Manifest(main.View(), Views(entries))) else Err
  {
    main := new Section();
    entries, current := [], main;
    var currentLine, continuationLine, unread := "", "", content;
    assert StateOf(main, entries, current, currentLine, continuationLine) == START;
    while true
      invariant fresh(main) && fresh(current) && fresh(entries) && Separate(main, entries, current)
      invariant ParseLines(StateOf(main, entries, current, currentLine, continuationLine), Lines(unread)) ==
                ParseLines(START, Lines(content))
      decreases |unread|
    {
      hide Process, ParseLines, Lines, FirstLine, AfterLine, AtEnd, Flush, IsPrefix, Close, Views, Separate;
      ParseOneLine(StateOf(main, entries, current, currentLine, continuationLine), unread);
      var line, rest, eof := ReadString(unread);
      unread := rest;
      if IsPrefix(" ", line) {
        if currentLine == "" {
          return false, main, entries, current;
        }
        continuationLine := continuationLine + line[1..];
        continue;
      }
      ok, entries, current := EndLine(main, entries, current, currentLine, continuationLine, line);
      if !ok || (line != "" && eof) {
        return false, main, entries, current;
      }
      currentLine, continuationLine := line, "";
      if line == "" && eof {
        return true, main, entries, current;
      }
    }
  }

  /** The line collected so far is processed; a blank line then ends its section. */
  method EndLine(main: Section, entries: seq<Section>, current: Section, currentLine: string, continuationLine: string,
                 line: string)
    returns (ok: bool, entries': seq<Section>, current': Section)
    requires Separate(main, entries, current)
    modifies current
    ensures ok <==> Flush(old(StateOf(main, entries, current, currentLine, continuationLine))).Ok?
    ensures Separate(main, entries', current') && (current' == current || fresh(current'))
    ensures entries' == entries || entries' == entries + [current]
    ensures line == "" ==> current' != main
    ensures ok ==>
              var p := old(StateOf(main, entries, current, currentLine, continuationLine));
              var p' := p.(current := Flush(p).value, line := line, continuation := "");
              StateOf(main, entries', current', line, "") == if line == "" then Close(p') else p'
  {
    hide Process;
    entries', current' := entries, current;
    ok := ProcessManifestLine(current, currentLine + continuationLine);
    if line == "" {
      if current != main && |current.names| > 0 {
        entries' := entries + [current];
      }
      current' := new Section();
    }
  }

  predicate AtEnd(text: string) { IndexOf(text, '\n') == |text| }

  function FirstLine(text: string): string {
    if AtEnd(text) then TrimBreaks(text) else TrimBreaks(text[..IndexOf(text, '\n') + 1])
  }

  function AfterLine(text: string): (rest: string)
    ensures AtEnd(text) || |rest| < |text|
  {
    if AtEnd(text) then "" else text[IndexOf(text, '\n') + 1..]
  }

  /** The reader's next line without its breaks, what is left to read, and io.EOF. */
  method ReadString(unread: string) returns (line: string, rest: string, eof: bool)
    ensures line == FirstLine(unread) && rest == AfterLine(unread) && eof == AtEnd(unread)
  {
    var i := IndexOf(unread, '\n');
    eof := i == |unread|;
    if eof {
      line, rest := TrimBreaks(unread), "";
    } else {
      line, rest := TrimBreaks(unread[..i + 1]), unread[i + 1..];
    }
  }

  /** What one line read from the text does to the parse of the rest. */
  lemma ParseOneLine(p: Parser, text: string)
    ensures var eof, line, rest := AtEnd(text), FirstLine(text), AfterLine(text);
            ParseLines(p, Lines(text)) ==
              if IsPrefix(" ", line) then
                if p.line == "" then Err
                else ParseLines(p.(continuation := p.continuation + line[1..]), Lines(rest))
              else if Flush(p).Err? then Err
              else
                var p' := p.(current := Flush(p).value, line := line, continuation := "");
                if line == "" then
                  if eof then Ok(Manifest(Close(p').main, Close(p').entries)) else ParseLines(Close(p'), Lines(rest))
                else if eof then Err
                else ParseLines(p', Lines(rest))
  {
    hide Process;
    var i := IndexOf(text, '\n');
    if i < |text| {
      assert Lines(text)[1..] == Lines(text[i + 1..]);
    }
    assert Lines("") == [""];
  }

  ghost predicate Separate(main: Section, entries: seq<Section>, current: Section)
    reads main, entries, current
  {
    && main.Valid() && current.Valid() && (forall i :: 0 <= i < |entries| ==> entries[i].Valid())
    && main !in entries && current !in entries
    && (forall i, j :: 0 <= i < j < |entries| ==> entries[i] != entries[j])
  }

  ghost function StateOf(main: Section, entries: seq<Section>, current: Section, line: string,
                         continuation: string): Parser
    reads main, entries, current
  {
    Parser(if current == main then [] else main.View(), Views(entries), current.View(), current == main, line,
                                           continuation)
  }

  // ----- writing -----

  /** writeAttribute's search for the last space before 72 bytes. */
  method FindSplit(remaining: string, base: nat) returns (splitIdx: nat)
    requires |remaining| > 72
    ensures splitIdx == SplitIndex(remaining, base)
    ensures CutsAt(remaining, base, splitIdx)
  {
    CutIsLastSpace(remaining, base);
    splitIdx := 71;
    while splitIdx > base && remaining[splitIdx] != ' '
      invariant splitIdx <= 71
      invariant FindSpace(remaining, splitIdx, base) == FindSpace(remaining, 71, base)
    {
      splitIdx := splitIdx - 1;
    }
    if splitIdx == base {
      splitIdx := 71;
    }
  }

  lemma JoinFoldStep(remaining: string, base: nat)
    ensures |remaining| > 72 ==>
              var i := SplitIndex(remaining, base);
              Join(FoldLines(remaining, base)) == (remaining[..i + 1] + CRLF)
                  + Join(FoldLines(" " + remaining[i + 1..], 0))
    ensures |remaining| <= 72 ==> Join(FoldLines(remaining, base)) == remaining + CRLF
  {
    if |remaining| > 72 {
      var i := SplitIndex(remaining, base);
      assert FoldLines(remaining, base)[1..] == FoldLines(" " + remaining[i + 1..], 0);
    } else {
      assert Join([remaining][1..]) == "";
    }
  }

  /** writeAttribute: what it appends to the output. */
  method WriteAttribute(name: string, value: string) returns (out: string)
    ensures out == Join(AttrLines(Attr(name, value)))
    ensures FoldsAtSpaces(name + ": " + value, |name| + 2, AttrLines(Attr(name, value)))
  {
    hide FoldLines, Join, SplitIndex, FoldsAtSpaces, CutsAt;
    LinesFoldAtSpaces(name + ": " + value, |name| + 2);
    var remaining := name + ": " + value;
    var base: nat := |name| + 2;
    out := "";
    ghost var want := Join(AttrLines(Attr(name, value)));
    while |remaining| > 72
      invariant out + Join(FoldLines(remaining, base)) == want
      decreases |remaining|
    {
      var splitIdx := FindSplit(remaining, base);
      JoinFoldStep(remaining, base);
      out := out + (remaining[..splitIdx + 1] + CRLF);
      remaining := " " + remaining[splitIdx + 1..];
      base := 0;
    }
    JoinFoldStep(remaining, base);
    out := out + (remaining + CRLF);
  }

  lemma {:induction false} JoinConcat(a: seq<string>, b: seq<string>)
    ensures Join(a + b) == Join(a) + Join(b)
    decreases |a|
  {
    if a == [] {
      assert a + b == b;
    } else {
      assert (a + b)[1..] == a[1..] + b;
      JoinConcat(a[1..], b);
    }
  }

  lemma {:induction false} SectionLinesSnoc(s: Attrs, a: Attr)
    ensures SectionLines(s + [a]) == SectionLines(s) + AttrLines(a)
    decreases |s|
  {
    if s == [] {
      assert s + [a] == [a];
      assert SectionLines([a]) == AttrLines(a) + SectionLines([]);
    } else {
      assert (s + [a])[1..] == s[1..] + [a];
      SectionLinesSnoc(s[1..], a);
    }
  }

  lemma {:induction false} EntriesLinesSnoc(entries: seq<Attrs>, s: Attrs)
    ensures EntriesLines(entries + [s]) == EntriesLines(entries) + ([""] + SectionLines(s))
    decreases |entries|
  {
    if entries == [] {
      assert entries + [s] == [s];
      assert EntriesLines([s]) == [""] + SectionLines(s) + EntriesLines([]);
    } else {
      assert (entries + [s])[1..] == entries[1..] + [s];
      EntriesLinesSnoc(entries[1..], s);
    }
  }

  /** writeSection. */
  method WriteSection(section: Section) returns (out: string)
    requires section.Valid()
    ensures out == Join(SectionLines(section.View()))
  {
    out := "";
    ghost var view := section.View();
    NoLines(view);
    hide AttrLines, Join, SectionLines, Holds, Has, Paired, EqualFold;
    for i := 0 to |section.names|
      invariant out == Join(SectionLines(view[..i]))
    {
      HasOwn(section, i);
      var value, _ := section.Get(section.names[i]);
      GetIsOwn(section, i, value);
      var text := WriteAttribute(section.names[i], value);
      OneMoreAttr(view, i);
      out := out + text;
    }
    assert view[..|section.names|] == view;
  }

  lemma NoLines(s: Attrs)
    ensures Join(SectionLines(s[..0])) == ""
  {
  }

  lemma OneMoreAttr(s: Attrs, i: nat)
    requires i < |s|
    ensures Join(SectionLines(s[..i + 1])) == Join(SectionLines(s[..i])) + Join(AttrLines(s[i]))
  {
    assert s[..i + 1] == s[..i] + [s[i]];
    SectionLinesSnoc(s[..i], s[i]);
    JoinConcat(SectionLines(s[..i]), AttrLines(s[i]));
  }

  lemma HasOwn(section: Section, i: nat)
    requires i < |section.names|
    ensures Has(section.View(), section.names[i])
  {
    FoldReflexive(section.names[i]);
    assert EqualFold(section.View()[i].name, section.names[i]);
  }

  lemma FoldSymmetric(a: string, b: string)
    ensures EqualFold(a, b) <==> EqualFold(b, a)
  {
  }

  /** With names distinct up to case, looking a name up finds its own attribute. */
  lemma GetIsOwn(section: Section, i: nat, value: string)
    requires section.Valid() && i < |section.names|
    requires Holds(section.View(), section.names[i], value)
    ensures section.View()[i] == Attr(section.names[i], value)
  {
    var view := section.View();
    var j :| 0 <= j < |view| && EqualFold(view[j].name, section.names[i]) && view[j].value == value;
    FoldSymmetric(section.names[i], section.names[j]);
    hide EqualFold;
  }

  lemma AppendEntry(entries: seq<Attrs>, s: Attrs)
    ensures Join(EntriesLines(entries + [s])) == Join(EntriesLines(entries)) + (CRLF + Join(SectionLines(s)))
  {
    EntriesLinesSnoc(entries, s);
    JoinConcat(EntriesLines(entries), [""] + SectionLines(s));
    JoinConcat([""], SectionLines(s));
    BlankLine();
  }

  lemma BlankLine()
    ensures Join([""]) == CRLF
  {
    assert Join([""][1..]) == "";
  }

  lemma PrintParts(m: Manifest)
    ensures Print(m) == Join(SectionLines(m.main)) + Join(EntriesLines(m.entries)) + CRLF
  {
    JoinConcat(SectionLines(m.main), EntriesLines(m.entries));
    JoinConcat(SectionLines(m.main) + EntriesLines(m.entries), [""]);
    BlankLine();
  }

  lemma NoEntries(entries: seq<Attrs>)
    ensures Join(EntriesLines(entries[..0])) == ""
  {}

  /** WriteManifest's loop over the entry sections. */
  method WriteEntries(sections: seq<Section>) returns (out: string)
    requires forall i :: 0 <= i < |sections| ==> sections[i].Valid()
    ensures out == Join(EntriesLines(Views(sections)))
  {
    hide Join, EntriesLines, SectionLines;
    out := "";
    ghost var entries := Views(sections);
    NoEntries(entries);
    for i := 0 to |sections|
      invariant out == Join(EntriesLines(entries[..i]))
    {
      var text := WriteSection(sections[i]);
      assert entries[..i + 1] == entries[..i] + [sections[i].View()];
      AppendEntry(entries[..i], sections[i].View());
      out := out + (CRLF + text);
    }
    assert entries[..|sections|] == entries;
  }

  /** WriteManifest. */
  method WriteManifest(m: ManifestObject) returns (out: string)
    requires m.Valid()
    ensures out == Print(m.View())
  {
    var main := WriteSection(m.mainSection);
    var entries := WriteEntries(m.entrySections);
    PrintParts(m.View());
    out := main + entries + CRLF;
  }
}
