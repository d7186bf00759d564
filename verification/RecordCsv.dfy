/** The text of a wheel's RECORD file: fields quoted as RFC 4180 section 2 asks, and a
    reader for them (pkg/stabilize/wheel.go:76-87). */
module RecordCsv {
  import opened Options

  datatype Row = Row(path: string, digest: string, size: string)

  predicate Special(c: char) { c == ',' || c == '"' || c == '\r' || c == '\n' }

  predicate Plain(s: string) { forall i :: 0 <= i < |s| ==> !Special(s[i]) }

  function Doubled(s: string): string {
    if s == "" then "" else (if s[0] == '"' then "\"\"" else [s[0]]) + Doubled(s[1..])
  }

  /** csvQuote: quoted only where it must be. */
  function CsvQuote(s: string): string {
    if Plain(s) then s else "\"" + Doubled(s) + "\""
  }

  function Render(r: Row): string {
    CsvQuote(r.path) + "," + r.digest + "," + r.size + "\n"
  }

  function RenderAll(rows: seq<Row>): string {
    if rows == [] then "" else Render(rows[0]) + RenderAll(rows[1..])
  }

  lemma {:induction false} RenderAppend(rows: seq<Row>, r: Row)
    ensures RenderAll(rows + [r]) == RenderAll(rows) + Render(r)
  {
    if rows != [] {
      assert (rows + [r])[1..] == rows[1..] + [r];
      RenderAppend(rows[1..], r);
      hide Render;
      assert Render(rows[0]) + (RenderAll(rows[1..]) + Render(r)) == Render(rows[0]) + RenderAll(rows[1..]) + Render(r);
    } else {
      assert RenderAll([r]) == Render(r) by { assert [r][1..] == []; assert Render(r) + "" == Render(r); }
      assert rows + [r] == [r];
    }
  }

  // ----- the reader -----

  /** After an opening quote: a doubled quote is a quote, a single one ends the field. */
  function ReadQuoted(s: string): (r: Option<(string, string)>)
    ensures r.Some? ==> |r.value.1| < |s|
  {
    if s == "" then None
    else if s[0] == '"' && (|s| == 1 || s[1] != '"') then Some(("", s[1..]))
    else
      var n := if s[0] == '"' then 2 else 1;
      match ReadQuoted(s[n..])
      case None => None
      case Some(p) => Some(([s[0]] + p.0, p.1))
  }

  predicate Ends(c: char) { c == ',' || c == '\n' }

  function ReadPlain(s: string): (r: (string, string))
    ensures |r.1| <= |s|
  {
    if s == "" || Ends(s[0]) then ("", s)
    else var p := ReadPlain(s[1..]); ([s[0]] + p.0, p.1)
  }

  function ReadField(s: string): (r: Option<(string, string)>)
    ensures r.Some? ==> |r.value.1| <= |s|
  {
    if s != "" && s[0] == '"' then ReadQuoted(s[1..]) else Some(ReadPlain(s))
  }

  /** A field and the character that must follow it. */
  function ReadEnded(s: string, end: char): (r: Option<(string, string)>)
    ensures r.Some? ==> |r.value.1| < |s|
  {
    match ReadField(s)
    case None => None
    case Some(p) => if p.1 != "" && p.1[0] == end then Some((p.0, p.1[1..])) else None
  }

  function ReadRow(s: string): (r: Option<(Row, string)>)
    ensures r.Some? ==> |r.value.1| < |s|
  {
    match ReadEnded(s, ',')
    case None => None
    case Some(a) =>
      match ReadEnded(a.1, ',')
      case None => None
      case Some(b) =>
        match ReadEnded(b.1, '\n')
        case None => None
        case Some(c) => Some((Row(a.0, b.0, c.0), c.1))
  }

  function ReadRows(s: string): Option<seq<Row>>
    decreases |s|
  {
    if s == "" then Some([])
    else
      match ReadRow(s)
      case None => None
      case Some(p) =>
        match ReadRows(p.1)
        case None => None
        case Some(rest) => Some([p.0] + rest)
  }

  // ----- what is written is read back -----

  lemma {:induction false} QuotedBack(f: string, rest: string)
    requires rest == "" || rest[0] != '"'
    ensures ReadQuoted(Doubled(f) + "\"" + rest) == Some((f, rest))
  {
    var s := Doubled(f) + "\"" + rest;
    if f == "" {
      assert s == "\"" + rest;
      assert s[1..] == rest;
    } else {
      QuotedBack(f[1..], rest);
      var t := Doubled(f[1..]) + "\"" + rest;
      assert f == [f[0]] + f[1..];
      if f[0] == '"' {
        assert s == "\"\"" + t;
        assert s[2..] == t;
      } else {
        assert s == [f[0]] + t;
        assert s[1..] == t;
      }
    }
  }

  lemma {:induction false} PlainBack(f: string, end: char, rest: string)
    requires Plain(f) && Ends(end)
    ensures ReadPlain(f + [end] + rest) == (f, [end] + rest)
  {
    var s := f + [end] + rest;
    if f == "" {
      assert s == [end] + rest;
    } else {
      PlainBack(f[1..], end, rest);
      assert s[1..] == f[1..] + [end] + rest;
      assert f == [f[0]] + f[1..];
    }
  }

  /** Any text at all, quoted where needed, is read back as itself. */
  lemma FieldBack(f: string, end: char, rest: string)
    requires Ends(end)
    ensures ReadEnded(CsvQuote(f) + [end] + rest, end) == Some((f, rest))
  {
    var s := CsvQuote(f) + [end] + rest;
    assert ([end] + rest)[1..] == rest;
    if Plain(f) {
      PlainBack(f, end, rest);
      assert s[0] == if f == "" then end else f[0];
    } else {
      var tail := [end] + rest;
      QuotedBack(f, tail);
      assert s == "\"" + (Doubled(f) + "\"" + tail);
      assert s[1..] == Doubled(f) + "\"" + tail;
    }
  }

  lemma RowBack(r: Row, rest: string)
    requires Plain(r.digest) && Plain(r.size)
    ensures ReadRow(Render(r) + rest) == Some((r, rest))
  {
    var third := r.size + ['\n'] + rest;
    var second := r.digest + [','] + third;
    assert Render(r) + rest == CsvQuote(r.path) + [','] + second;
    assert CsvQuote(r.digest) == r.digest && CsvQuote(r.size) == r.size;
    FieldBack(r.path, ',', second);
    FieldBack(r.digest, ',', third);
    FieldBack(r.size, '\n', rest);
    hide CsvQuote, ReadEnded;
  }

  /** The rows written are the rows read, commas, quotes and line breaks in paths included. */
  lemma {:induction false} RowsBack(rows: seq<Row>)
    requires forall i :: 0 <= i < |rows| ==> Plain(rows[i].digest) && Plain(rows[i].size)
    ensures ReadRows(RenderAll(rows)) == Some(rows)
  {
    if rows != [] {
      RowBack(rows[0], RenderAll(rows[1..]));
      RowsBack(rows[1..]);
      assert rows == [rows[0]] + rows[1..];
      NotEmpty(rows[0]);
      hide Render, ReadRow;
    }
  }

  lemma NotEmpty(r: Row)
    ensures Render(r) != ""
  {
    assert Render(r)[|Render(r)| - 1] == '\n';
  }

  /** fmt's %d for a size. */
  function Decimal(n: nat): string {
    if n < 10 then [Digit(n)] else Decimal(n / 10) + [Digit(n % 10)]
  }

  function Digit(n: nat): char
    requires n < 10
  {
    '0' + n as char
  }

  lemma {:induction false} DecimalIsPlain(n: nat)
    ensures Plain(Decimal(n))
  {
    if n >= 10 { DecimalIsPlain(n / 10); }
  }

  function DecimalValue(s: string): int {
    if s == "" then 0 else 10 * DecimalValue(s[..|s| - 1]) + (s[|s| - 1] as int - '0' as int)
  }

  /** The size is read back as the number it was. */
  lemma {:induction false} DecimalBack(n: nat)
    ensures DecimalValue(Decimal(n)) == n
  {
    var d := Decimal(n);
    if n < 10 {
      assert d[..0] == "";
    } else {
      DecimalBack(n / 10);
      assert d[..|d| - 1] == Decimal(n / 10);
    }
  }
}
