/** The CSV text the history export builds (components/HistoryAnalytics.tsx,
    `downloadCSV`): fields joined by ',' and rows joined by a bare LF. A
    quoted field follows the rules of RFC 4180 section 2 (rules 5-7): it is
    wrapped in double quotes and each double quote inside it is doubled.

    `ParseTable` is a reader for that format. `ParseRenderRoundTrip` shows
    that reading a rendered table gives back every field's text, so the
    export loses nothing, whatever quotes, commas or line breaks a note
    contains. */
module Csv {
  import opened Common

  /** A field as the export writes it: verbatim, or quoted and escaped. */
  datatype Field = Plain(text: string) | Quoted(text: string)

  /** A verbatim field must not contain a separator or a quote. */
  predicate PlainSafe(t: string) {
    forall i :: 0 <= i < |t| ==> t[i] != ',' && t[i] != '"' && t[i] != '\n'
  }

  predicate FieldSafe(f: Field) {
    f.Plain? ==> PlainSafe(f.text)
  }

  predicate RowsSafe(rows: seq<seq<Field>>) {
    forall i :: 0 <= i < |rows| ==> |rows[i]| > 0 && forall j :: 0 <= j < |rows[i]| ==> FieldSafe(rows[i][j])
  }

  /** `replace(/"/g, '""')`. */
  function Escape(t: string): (r: string)
    ensures |r| >= |t|
  {
    if |t| == 0 then ""
    else (if t[0] == '"' then "\"\"" else [t[0]]) + Escape(t[1..])
  }

  function Render(f: Field): string {
    match f
    case Plain(t) => t
    case Quoted(t) => "\"" + Escape(t) + "\""
  }

  /** `fields.join(',')`. */
  function RenderRow(fields: seq<Field>): string
    requires |fields| > 0
  {
    if |fields| == 1 then Render(fields[0]) else Render(fields[0]) + "," + RenderRow(fields[1..])
  }

  /** `lines.join('\n')`. */
  function RenderTable(rows: seq<seq<Field>>): string
    requires |rows| > 0 && forall i :: 0 <= i < |rows| ==> |rows[i]| > 0
  {
    if |rows| == 1 then RenderRow(rows[0]) else RenderRow(rows[0]) + "\n" + RenderTable(rows[1..])
  }

  function Texts(fields: seq<Field>): (r: seq<string>)
    ensures |r| == |fields| && forall i :: 0 <= i < |fields| ==> r[i] == fields[i].text
  {
    if |fields| == 0 then [] else [fields[0].text] + Texts(fields[1..])
  }

  function TableTexts(rows: seq<seq<Field>>): (r: seq<seq<string>>)
    ensures |r| == |rows| && forall i :: 0 <= i < |rows| ==> r[i] == Texts(rows[i])
  {
    if |rows| == 0 then [] else [Texts(rows[0])] + TableTexts(rows[1..])
  }

  // ---------------------------------------------------------------------------
  // Reading

  /** The rest of a quoted field after its opening quote: its text and what
      follows the closing quote. A doubled quote stands for one quote. */
  function ParseQuoted(s: string): (r: Option<(string, string)>)
    ensures r.Some? ==> |r.value.1| < |s|
    decreases |s|
  {
    if |s| == 0 then None
    else if s[0] == '"' then
      if |s| >= 2 && s[1] == '"' then
        match ParseQuoted(s[2..])
        case Some((v, rest)) => Some(("\"" + v, rest))
        case None => None
      else Some(("", s[1..]))
    else
      match ParseQuoted(s[1..])
      case Some((v, rest)) => Some(([s[0]] + v, rest))
      case None => None
  }

  /** A verbatim field: everything up to the next ',' or line break. */
  function ParsePlain(s: string): (r: (string, string))
    ensures |r.1| <= |s|
    decreases |s|
  {
    if |s| == 0 || s[0] == ',' || s[0] == '\n' then ("", s)
    else
      var (v, rest) := ParsePlain(s[1..]);
      ([s[0]] + v, rest)
  }

  function ParseField(s: string): (r: Option<(string, string)>)
    ensures r.Some? ==> |r.value.1| <= |s|
  {
    if |s| > 0 && s[0] == '"' then ParseQuoted(s[1..]) else Some(ParsePlain(s))
  }

  /** One record: its fields, and the text after its line break (`None` at the end of the input). */
  function ParseRow(s: string): (r: Option<(seq<string>, Option<string>)>)
    ensures r.Some? && r.value.1.Some? ==> |r.value.1.value| < |s|
    decreases |s|
  {
    match ParseField(s)
    case None => None
    case Some((v, rest)) =>
      if |rest| == 0 then Some(([v], None))
      else if rest[0] == ',' then
        match ParseRow(rest[1..])
        case Some((vs, next)) => Some(([v] + vs, next))
        case None => None
      else if rest[0] == '\n' then Some(([v], Some(rest[1..])))
      else None
  }

  function ParseTable(s: string): Option<seq<seq<string>>>
    decreases |s|
  {
    match ParseRow(s)
    case None => None
    case Some((row, None)) => Some([row])
    case Some((row, Some(rest))) =>
      match ParseTable(rest)
      case Some(rows) => Some([row] + rows)
      case None => None
  }

  // ---------------------------------------------------------------------------
  // Round trip

  lemma {:induction false} ParseQuotedEscape(t: string, rest: string)
    requires |rest| == 0 || rest[0] != '"'
    ensures ParseQuoted(Escape(t) + "\"" + rest) == Some((t, rest))
    decreases |t|
  {
    if |t| == 0 {
      assert Escape(t) + "\"" + rest == "\"" + rest;
    } else {
      ParseQuotedEscape(t[1..], rest);
      EscapeStep(t, rest);
    }
  }

  /** One more character in front of an escaped text reads back as that character. */
  lemma EscapeStep(t: string, rest: string)
    requires |t| > 0 && ParseQuoted(Escape(t[1..]) + "\"" + rest) == Some((t[1..], rest))
    ensures ParseQuoted(Escape(t) + "\"" + rest) == Some((t, rest))
  {
    var tail := Escape(t[1..]) + "\"" + rest;
    if t[0] == '"' {
      assert Escape(t) + "\"" + rest == "\"\"" + tail;
      ParseDoubledQuote(tail, t[1..], rest);
      assert "\"" + t[1..] == t;
    } else {
      assert Escape(t) + "\"" + rest == [t[0]] + tail;
      ParseQuotedChar(t[0], tail, t[1..], rest);
      assert [t[0]] + t[1..] == t;
    }
  }

  /** A doubled quote inside a quoted field reads as one quote. */
  lemma ParseDoubledQuote(tail: string, v: string, rest: string)
    requires ParseQuoted(tail) == Some((v, rest))
    ensures ParseQuoted("\"\"" + tail) == Some(("\"" + v, rest))
  {
    assert ("\"\"" + tail)[2..] == tail;
  }

  /** Any other character inside a quoted field reads as itself. */
  lemma ParseQuotedChar(c: char, tail: string, v: string, rest: string)
    requires c != '"' && ParseQuoted(tail) == Some((v, rest))
    ensures ParseQuoted([c] + tail) == Some(([c] + v, rest))
  {
    assert ([c] + tail)[1..] == tail;
  }

  lemma {:induction false} ParsePlainText(t: string, rest: string)
    requires PlainSafe(t)
    requires |rest| == 0 || rest[0] == ',' || rest[0] == '\n'
    ensures ParsePlain(t + rest) == (t, rest)
    decreases |t|
  {
    if |t| == 0 {
      assert t + rest == rest;
    } else {
      assert (t + rest)[1..] == t[1..] + rest;
      ParsePlainText(t[1..], rest);
      assert t == [t[0]] + t[1..];
    }
  }

  /** A rendered field followed by a separator (or nothing) reads back as its text. */
  lemma ParseFieldRender(f: Field, rest: string)
    requires FieldSafe(f)
    requires |rest| == 0 || rest[0] == ',' || rest[0] == '\n'
    ensures ParseField(Render(f) + rest) == Some((f.text, rest))
  {
    match f
    case Plain(t) =>
      ParsePlainText(t, rest);
      if |t| > 0 {
        assert (t + rest)[0] == t[0];
      }
    case Quoted(t) =>
      ParseQuotedEscape(t, rest);
      assert Render(f) + rest == "\"" + (Escape(t) + "\"" + rest);
  }

  lemma RowEndsHere(s: string, v: string, rest: string)
    requires ParseField(s) == Some((v, rest))
    requires |rest| == 0 || rest[0] == '\n'
    ensures ParseRow(s) == Some(([v], if |rest| == 0 then None else Some(rest[1..])))
  {
  }

  lemma RowContinues(s: string, v: string, rest: string, vs: seq<string>, next: Option<string>)
    requires ParseField(s) == Some((v, rest))
    requires |rest| > 0 && rest[0] == ','
    requires ParseRow(rest[1..]) == Some((vs, next))
    ensures ParseRow(s) == Some(([v] + vs, next))
  {
  }

  lemma TableEndsHere(s: string, row: seq<string>)
    requires ParseRow(s) == Some((row, None))
    ensures ParseTable(s) == Some([row])
  {
  }

  lemma TableContinues(s: string, row: seq<string>, rest: string, rows: seq<seq<string>>)
    requires ParseRow(s) == Some((row, Some(rest)))
    requires ParseTable(rest) == Some(rows)
    ensures ParseTable(s) == Some([row] + rows)
  {
  }

  lemma LastFieldRender(fields: seq<Field>, rest: string)
    requires |fields| == 1 && FieldSafe(fields[0])
    requires |rest| == 0 || rest[0] == '\n'
    ensures ParseRow(RenderRow(fields) + rest) == Some((Texts(fields), if |rest| == 0 then None else Some(rest[1..])))
  {
    assert RenderRow(fields) == Render(fields[0]);
    ParseFieldRender(fields[0], rest);
    RowEndsHere(RenderRow(fields) + rest, fields[0].text, rest);
    assert Texts(fields) == [fields[0].text];
  }

  lemma RenderRowCons(fields: seq<Field>)
    requires |fields| > 1
    ensures RenderRow(fields) == Render(fields[0]) + "," + RenderRow(fields[1..])
    ensures Texts(fields) == [fields[0].text] + Texts(fields[1..])
  {
  }

  lemma RenderRowFront(f: Field, fields: seq<Field>, rest: string)
    requires |fields| > 0
    ensures RenderRow([f] + fields) + rest == Render(f) + ("," + (RenderRow(fields) + rest))
    ensures Texts([f] + fields) == [f.text] + Texts(fields)
  {
    var all := [f] + fields;
    assert all[0] == f && all[1..] == fields;
    RenderRowCons(all);
    var a, b := Render(f), RenderRow(fields);
    assert RenderRow(all) == a + "," + b;
    Regroup(a, ",", b, rest);
  }

  lemma Regroup(a: string, b: string, c: string, d: string)
    ensures a + b + c + d == a + (b + (c + d))
  {
  }

  /** One more field in front of a row that reads back. */
  lemma FieldThenRow(f: Field, fields: seq<Field>, rest: string, next: Option<string>)
    requires FieldSafe(f) && |fields| > 0
    requires ParseRow(RenderRow(fields) + rest) == Some((Texts(fields), next))
    ensures ParseRow(RenderRow([f] + fields) + rest) == Some((Texts([f] + fields), next))
  {
    var tail := RenderRow(fields) + rest;
    var sep := "," + tail;
    var s := Render(f) + sep;
    RenderRowFront(f, fields, rest);
    ParseFieldRender(f, sep);
    assert sep[1..] == tail;
    RowContinues(s, f.text, sep, Texts(fields), next);
  }

  lemma {:induction false} ParseRowRender(fields: seq<Field>, rest: string)
    requires |fields| > 0 && forall j :: 0 <= j < |fields| ==> FieldSafe(fields[j])
    requires |rest| == 0 || rest[0] == '\n'
    ensures ParseRow(RenderRow(fields) + rest) == Some((Texts(fields), if |rest| == 0 then None else Some(rest[1..])))
    decreases |fields|
  {
    if |fields| == 1 {
      LastFieldRender(fields, rest);
    } else {
      ParseRowRender(fields[1..], rest);
      FieldThenRow(fields[0], fields[1..], rest, if |rest| == 0 then None else Some(rest[1..]));
      assert [fields[0]] + fields[1..] == fields;
    }
  }

  lemma RowsSafeSplit(rows: seq<seq<Field>>)
    requires |rows| > 0 && RowsSafe(rows)
    ensures |rows[0]| > 0 && forall j :: 0 <= j < |rows[0]| ==> FieldSafe(rows[0][j])
    ensures RowsSafe(rows[1..])
  {
    forall i | 0 <= i < |rows[1..]|
      ensures |rows[1..][i]| > 0 && forall j :: 0 <= j < |rows[1..][i]| ==> FieldSafe(rows[1..][i][j])
    {
      assert rows[1..][i] == rows[i + 1];
    }
  }

  lemma RenderTableCons(rows: seq<seq<Field>>)
    requires |rows| > 1 && forall i :: 0 <= i < |rows| ==> |rows[i]| > 0
    ensures RenderTable(rows) == RenderRow(rows[0]) + ("\n" + RenderTable(rows[1..]))
  {
  }

  lemma TableTextsCons(rows: seq<seq<Field>>)
    requires |rows| > 0
    ensures TableTexts(rows) == [Texts(rows[0])] + TableTexts(rows[1..])
  {
  }

  lemma OneRowRoundTrip(rows: seq<seq<Field>>)
    requires |rows| == 1 && |rows[0]| > 0 && forall j :: 0 <= j < |rows[0]| ==> FieldSafe(rows[0][j])
    ensures ParseTable(RenderTable(rows)) == Some(TableTexts(rows))
  {
    var text := RenderRow(rows[0]);
    assert RenderTable(rows) == text;
    ParseRowRender(rows[0], "");
    assert text + "" == text;
    assert ParseRow(text) == Some((Texts(rows[0]), None));
    TableEndsHere(text, Texts(rows[0]));
    assert TableTexts(rows) == [Texts(rows[0])] by {
      TableTextsCons(rows);
      assert rows[1..] == [];
    }
  }

  /** Reading a rendered table gives back the text of every field, row by row. */
  lemma {:induction false} ParseRenderRoundTrip(rows: seq<seq<Field>>)
    requires |rows| > 0 && RowsSafe(rows)
    ensures ParseTable(RenderTable(rows)) == Some(TableTexts(rows))
    decreases |rows|
  {
    RowsSafeSplit(rows);
    if |rows| == 1 {
      OneRowRoundTrip(rows);
    } else {
      var tail := RenderTable(rows[1..]);
      var rest := "\n" + tail;
      RenderTableCons(rows);
      ParseRowRender(rows[0], rest);
      assert rest[1..] == tail;
      ParseRenderRoundTrip(rows[1..]);
      TableContinues(RenderRow(rows[0]) + rest, Texts(rows[0]), tail, TableTexts(rows[1..]));
      TableTextsCons(rows);
    }
  }
}
