/** The text of a JAR manifest: line endings, folding, parsing and printing
    (pkg/stabilize/manifest.go; JAR File Specification, section "Notes on Manifest
    and Signature Files").  A char stands for one byte. */
module ManifestText {
  import opened Texts

  datatype Result<+T> = Ok(value: T) | Err

  datatype Attr = Attr(name: string, value: string)

  /** A section: its attributes in order of appearance. */
  type Attrs = seq<Attr>

  datatype Manifest = Manifest(main: Attrs, entries: seq<Attrs>)

  const CRLF: string := "\r\n"

  // ----- names -----

  function LowerChar(c: char): char {
    if 'A' <= c <= 'Z' then (c as int + 32) as char else c
  }

  /** strings.EqualFold on ASCII text. */
  predicate EqualFold(a: string, b: string) {
    |a| == |b| && forall i :: 0 <= i < |a| ==> LowerChar(a[i]) == LowerChar(b[i])
  }

  predicate NameChar(c: char) {
    'A' <= c <= 'Z' || 'a' <= c <= 'z' || '0' <= c <= '9' || c == '-' || c == '_'
  }

  /** validateName. */
  predicate ValidName(name: string) {
    && |name| > 0
    && (forall i :: 0 <= i < |name| ==> NameChar(name[i]))
    && !(|name| >= 4 && EqualFold(name[..4], "from"))
  }

  predicate Has(s: Attrs, name: string) {
    exists i :: 0 <= i < |s| && EqualFold(s[i].name, name)
  }

  predicate IsPrefix(p: string, s: string) {
    |p| <= |s| && s[..|p|] == p
  }

  lemma TrimName(name: string)
    requires ValidName(name)
    ensures TrimSpace(name) == name
  {
    assert NameChar(name[0]) && NameChar(name[|name| - 1]);
  }

  // ----- one attribute line -----

  function IndexOf(s: string, c: char): (i: nat)
    ensures i <= |s|
    ensures i < |s| ==> s[i] == c
    ensures forall j :: 0 <= j < i ==> s[j] != c
  {
    if s == "" || s[0] == c then 0 else
      assert forall j :: 1 <= j < |s| ==> s[j] == s[1..][j - 1];
      1 + IndexOf(s[1..], c)
  }

  /** processManifestLine. */
  function Process(s: Attrs, line: string): Result<Attrs> {
    if line == "" then Ok(s)
    else
      var colon := IndexOf(line, ':');
      if colon == |line| then Err
      else
        var name := TrimSpace(line[..colon]);
        var value := line[colon + 1..];
        var value := if IsPrefix(" ", value) then value[1..] else value;
        if !ValidName(name) || Has(s, name) then Err
        else Ok(s + [Attr(name, value)])
  }

  lemma ProcessAttr(s: Attrs, a: Attr)
    requires ValidName(a.name) && !Has(s, a.name)
    ensures Process(s, a.name + ": " + a.value) == Ok(s + [a])
  {
    var line := a.name + ": " + a.value;
    assert line[|a.name|] == ':';
    assert IndexOf(line, ':') == |a.name| by {
      var i := IndexOf(line, ':');
      assert forall j :: 0 <= j < |a.name| ==> line[j] == a.name[j];
    }
    assert line[..|a.name|] == a.name;
    assert line[|a.name| + 1..] == " " + a.value;
    assert (" " + a.value)[1..] == a.value;
    TrimName(a.name);
  }

  // ----- parsing a list of lines -----

  datatype Parser = Parser(
    main: Attrs, entries: seq<Attrs>, current: Attrs, inMain: bool, line: string, continuation: string)

  /** A section separator: keep the section if it is the main one or has attributes. */
  function Close(p: Parser): Parser {
    Parser(if p.inMain then p.current else p.main,
           if !p.inMain && p.current != [] then p.entries + [p.current] else p.entries,
           [], false, p.line, p.continuation)
  }

  /** ParseManifest's loop; the last line is the one that ends the file instead of a newline. */
  function ParseLines(p: Parser, lines: seq<string>): Result<Manifest>
    requires lines != []
    decreases |lines|, |lines[0]|
  {
    var line, eof := lines[0], |lines| == 1;
    if IsPrefix(" ", line) then
      if p.line == "" then Err
      else
        var p' := p.(continuation := p.continuation + line[1..]);
        ParseLines(p', if eof then [""] else lines[1..])
    else
      match Process(p.current, p.line + p.continuation)
      case Err => Err
      case Ok(s) =>
        var p' := p.(current := s, line := line, continuation := "");
        if line == "" then
          var closed := Close(p');
          if eof then Ok(Manifest(closed.main, closed.entries)) else ParseLines(closed, lines[1..])
        else if eof then Err
        else ParseLines(p', lines[1..])
  }

  const START: Parser := Parser([], [], [], true, "", "")

  // ----- line endings -----

  /** bytes.ReplaceAll. */
  function ReplaceAll(s: string, what: string, by_: string): string
    requires what != ""
    decreases |s|
  {
    if s == "" then ""
    else if IsPrefix(what, s) then by_ + ReplaceAll(s[|what|..], what, by_)
    else [s[0]] + ReplaceAll(s[1..], what, by_)
  }

  function NormalizeLineEndings(data: string): string {
    ReplaceAll(ReplaceAll(ReplaceAll(data, CRLF, "\n"), "\r", "\n"), "\n", CRLF)
  }

  predicate LineBreak(c: char) { c == '\r' || c == '\n' }

  /** strings.TrimRight(line, "\r\n"). */
  function TrimBreaks(s: string): string {
    if s != "" && LineBreak(s[|s| - 1]) then TrimBreaks(s[..|s| - 1]) else s
  }

  /** The lines ReadString finds, breaks trimmed; the last one has no newline. */
  function Lines(content: string): (lines: seq<string>)
    ensures lines != []
    decreases |content|
  {
    var i := IndexOf(content, '\n');
    if i == |content| then [TrimBreaks(content)]
    else [TrimBreaks(content[..i + 1])] + Lines(content[i + 1..])
  }

  function Parse(data: string): Result<Manifest> {
    ParseLines(START, Lines(NormalizeLineEndings(data)))
  }

  // ----- printing -----

  /** Walk back from idx to a space, but not past base. */
  function FindSpace(s: string, idx: nat, base: nat): (i: nat)
    requires idx < |s|
    ensures i <= idx && (i < idx ==> base <= i)
    ensures i > base ==> i == idx || s[i] == ' '
  {
    if idx > base && s[idx] != ' ' then FindSpace(s, idx - 1, base) else idx
  }

  /** Where writeAttribute breaks a line longer than 72 bytes. */
  function SplitIndex(s: string, base: nat): (i: nat)
    requires |s| > 72
    ensures 0 < i <= 71
  {
    var i := FindSpace(s, 71, base);
    if i == base then 71 else i
  }

  /** The lines writeAttribute emits. */
  function FoldLines(remaining: string, base: nat): (lines: seq<string>)
    ensures lines != []
    decreases |remaining|
  {
    if |remaining| <= 72 then [remaining]
    else
      var i := SplitIndex(remaining, base);
      [remaining[..i + 1]] + FoldLines(" " + remaining[i + 1..], 0)
  }

  function AttrLines(a: Attr): seq<string> {
    FoldLines(a.name + ": " + a.value, |a.name| + 2)
  }

  function SectionLines(s: Attrs): seq<string> {
    if s == [] then [] else AttrLines(s[0]) + SectionLines(s[1..])
  }

  function EntriesLines(entries: seq<Attrs>): seq<string> {
    if entries == [] then [] else [""] + SectionLines(entries[0]) + EntriesLines(entries[1..])
  }

  function ManifestLines(m: Manifest): seq<string> {
    SectionLines(m.main) + EntriesLines(m.entries) + [""]
  }

  /** Every line with its CRLF. */
  function Join(lines: seq<string>): string {
    if lines == [] then "" else lines[0] + CRLF + Join(lines[1..])
  }

  function Print(m: Manifest): string {
    Join(ManifestLines(m))
  }
}
