/**
 * What the tokenizer guarantees about its output, and a CSV writer it inverts.
 */
module TokenizerProperties {
  import opened JsString
  import opened Tokenizer

  // ---------------------------------------------------------------------------
  // Shape of the output
  // ---------------------------------------------------------------------------

  predicate AllTrimmed(row: Row) {
    forall k | 0 <= k < |row| :: IsTrimmed(row[k])
  }

  /** Every row has a field, every field is trimmed, and only the last row can be blank
      (a row at a line break that is one empty field is dropped; the final flush is not). */
  predicate WellShaped(rows: seq<Row>) {
    forall k | 0 <= k < |rows| ::
      |rows[k]| >= 1 && AllTrimmed(rows[k]) && (k < |rows| - 1 ==> !IsBlankRow(rows[k]))
  }

  /** The state invariant of the scan behind `WellShaped`. */
  predicate GoodState(s: ScanState) {
    AllTrimmed(s.row) &&
    forall k | 0 <= k < |s.rows| :: |s.rows[k]| >= 1 && AllTrimmed(s.rows[k]) && !IsBlankRow(s.rows[k])
  }

  lemma AppendTrimmed(row: Row, f: string)
    requires AllTrimmed(row)
    ensures AllTrimmed(row + [Trim(f)])
  {
    var r := row + [Trim(f)];
    forall k | 0 <= k < |r|
      ensures IsTrimmed(r[k])
    {
      if k < |row| {
        assert r[k] == row[k];
      }
    }
  }

  lemma EndFieldGood(s: ScanState)
    requires GoodState(s)
    ensures GoodState(EndField(s))
  {
    AppendTrimmed(s.row, s.field);
  }

  lemma EndRowGood(s: ScanState)
    requires GoodState(s)
    ensures GoodState(EndRow(s))
  {
    var row := s.row + [Trim(s.field)];
    AppendTrimmed(s.row, s.field);
    if !IsBlankRow(row) {
      var rows := s.rows + [row];
      forall k | 0 <= k < |rows|
        ensures |rows[k]| >= 1 && AllTrimmed(rows[k]) && !IsBlankRow(rows[k])
      {
        if k < |s.rows| {
          assert rows[k] == s.rows[k];
        }
      }
    }
  }

  lemma StepKeepsGood(rest: string, s: ScanState)
    requires rest != [] && GoodState(s)
    ensures GoodState(Step(rest, s).1)
  {
    var c := rest[0];
    if c == '"' {
    } else if c == ',' && !s.insideQuote {
      EndFieldGood(s);
    } else if (c == '\n' || c == '\r') && !s.insideQuote {
      if !(c == '\r' && |rest| > 1 && rest[1] == '\n') {
        EndRowGood(s);
      }
    }
  }

  lemma FinishWellShaped(s: ScanState)
    requires GoodState(s)
    ensures WellShaped(Finish(s))
  {
    if s.field != "" || |s.row| > 0 {
      var row := s.row + [Trim(s.field)];
      AppendTrimmed(s.row, s.field);
      var rows := s.rows + [row];
      forall k | 0 <= k < |rows|
        ensures |rows[k]| >= 1 && AllTrimmed(rows[k]) && (k < |rows| - 1 ==> !IsBlankRow(rows[k]))
      {
        if k < |s.rows| {
          assert rows[k] == s.rows[k];
        }
      }
    }
  }

  lemma {:induction false} RunWellShaped(rest: string, s: ScanState)
    requires GoodState(s)
    ensures WellShaped(Run(rest, s))
    decreases |rest|
  {
    if rest == [] {
      FinishWellShaped(s);
    } else {
      var r := Step(rest, s);
      StepKeepsGood(rest, s);
      RunWellShaped(rest[r.0..], r.1);
    }
  }

  /** Every row `Tokenize` produces has at least one field, every field is trimmed,
      and no row but the last is a blank line. */
  lemma TokenizeWellShaped(text: string)
    ensures WellShaped(Tokenize(text))
  {
    RunWellShaped(text, Start);
  }

  /** An unterminated quote: the rest of the text, commas and line breaks included,
      goes verbatim into the field, which becomes the last field of the last row. */
  lemma {:induction false} UnterminatedQuote(rest: string, s: ScanState)
    requires s.insideQuote
    requires forall k | 0 <= k < |rest| :: rest[k] != '"'
    ensures Run(rest, s) == Finish(s.(field := s.field + rest))
    decreases |rest|
  {
    if rest == [] {
      assert s.field + rest == s.field;
    } else {
      assert rest == [rest[0]] + rest[1..];
      RunChar(rest[0], rest[1..], s);
      assert s.field + [rest[0]] + rest[1..] == s.field + rest;
      UnterminatedQuote(rest[1..], s.(field := s.field + [rest[0]]));
    }
  }

  // ---------------------------------------------------------------------------
  // A CSV writer and the round trip through the tokenizer
  // ---------------------------------------------------------------------------

  /** A field as a writer emits it: bare, or wrapped in quotes with `"` doubled. */
  datatype Cell = Plain(text: string) | Quoted(text: string)

  /** How a line ends; `NoEnd` is only for the last line of a file. */
  datatype LineEnding = LF | CRLF | CR | NoEnd

  datatype Line = Line(cells: seq<Cell>, ending: LineEnding)

  /** Characters that would end or re-quote a bare field. */
  predicate IsSpecial(c: char) {
    c == '"' || c == ',' || c == '\n' || c == '\r'
  }

  function Escape(s: string): string {
    if s == [] then [] else (if s[0] == '"' then "\"\"" else [s[0]]) + Escape(s[1..])
  }

  function EncodeCell(c: Cell): string {
    match c
    case Plain(t) => t
    case Quoted(t) => "\"" + Escape(t) + "\""
  }

  /** The cells joined by commas. */
  function EncodeCells(cs: seq<Cell>): string
    decreases |cs|
  {
    if cs == [] then ""
    else if |cs| == 1 then EncodeCell(cs[0])
    else EncodeCell(cs[0]) + "," + EncodeCells(cs[1..])
  }

  function Terminator(e: LineEnding): string {
    match e
    case LF => "\n"
    case CRLF => "\r\n"
    case CR => "\r"
    case NoEnd => ""
  }

  function Encode(lines: seq<Line>): string
    decreases |lines|
  {
    if lines == [] then ""
    else EncodeCells(lines[0].cells) + Terminator(lines[0].ending) + Encode(lines[1..])
  }

  function Values(cs: seq<Cell>): Row {
    seq(|cs|, k requires 0 <= k < |cs| => cs[k].text)
  }

  function Table(lines: seq<Line>): seq<Row> {
    seq(|lines|, k requires 0 <= k < |lines| => Values(lines[k].cells))
  }

  /** A cell whose value survives the trip: trimmed, and bare only when it holds no special character. */
  predicate GoodCell(c: Cell) {
    IsTrimmed(c.text) && (c.Plain? ==> forall k | 0 <= k < |c.text| :: !IsSpecial(c.text[k]))
  }

  predicate GoodCells(cs: seq<Cell>) {
    forall k | 0 <= k < |cs| :: GoodCell(cs[k])
  }

  /** What a writer must respect for the tokenizer to give its table back. */
  predicate WellFormed(lines: seq<Line>) {
    forall k | 0 <= k < |lines| ::
      |lines[k].cells| >= 1 && GoodCells(lines[k].cells) && !IsBlankRow(Values(lines[k].cells)) &&
      (lines[k].ending == NoEnd ==> k == |lines| - 1)
  }

  // Single moves of the scan, one per kind of character.

  lemma StepChar(c: char, rest: string, s: ScanState)
    requires c != '"' && (s.insideQuote || !IsSpecial(c))
    ensures Step([c] + rest, s) == (1, s.(field := s.field + [c]))
  {
  }

  lemma RunChar(c: char, rest: string, s: ScanState)
    requires c != '"' && (s.insideQuote || !IsSpecial(c))
    ensures Run([c] + rest, s) == Run(rest, s.(field := s.field + [c]))
  {
    StepChar(c, rest, s);
    assert ([c] + rest)[1..] == rest;
  }

  lemma RunEscapedQuote(rest: string, s: ScanState)
    requires s.insideQuote
    ensures Run("\"\"" + rest, s) == Run(rest, s.(field := s.field + "\""))
  {
    assert Step("\"\"" + rest, s) == (2, s.(field := s.field + "\""));
    assert ("\"\"" + rest)[2..] == rest;
  }

  lemma RunLoneQuote(rest: string, s: ScanState)
    requires !s.insideQuote || rest == [] || rest[0] != '"'
    ensures Run("\"" + rest, s) == Run(rest, s.(insideQuote := !s.insideQuote))
  {
    assert Step("\"" + rest, s) == (1, s.(insideQuote := !s.insideQuote));
    assert ("\"" + rest)[1..] == rest;
  }

  lemma RunComma(rest: string, s: ScanState)
    requires !s.insideQuote
    ensures Run("," + rest, s) == Run(rest, EndField(s))
  {
    assert Step("," + rest, s) == (1, EndField(s));
    assert ("," + rest)[1..] == rest;
  }

  lemma RunLF(rest: string, s: ScanState)
    requires !s.insideQuote
    ensures Run("\n" + rest, s) == Run(rest, EndRow(s))
  {
    assert Step("\n" + rest, s) == (1, EndRow(s));
    assert ("\n" + rest)[1..] == rest;
  }

  /** A CR before a LF is skipped; a lone CR ends the row. */
  lemma RunCR(rest: string, s: ScanState)
    requires !s.insideQuote
    ensures Run("\r" + rest, s) == if rest != [] && rest[0] == '\n' then Run(rest, s) else Run(rest, EndRow(s))
  {
    assert Step("\r" + rest, s) == (1, if rest != [] && rest[0] == '\n' then s else EndRow(s));
    assert ("\r" + rest)[1..] == rest;
  }

  /** Inside quotes, an escaped text is read back into the field verbatim:
      each `""` gives one `"`, and commas and line breaks are kept. */
  lemma {:induction false} RunEscaped(t: string, b: string, s: ScanState)
    requires s.insideQuote
    ensures Run(Escape(t) + b, s) == Run(b, s.(field := s.field + t))
    decreases |t|
  {
    if t == [] {
      assert Escape(t) + b == b;
      assert s.field + t == s.field;
    } else {
      var rest := Escape(t[1..]) + b;
      assert s.field + [t[0]] + t[1..] == s.field + t;
      if t[0] == '"' {
        assert Escape(t) + b == "\"\"" + rest;
        RunEscapedQuote(rest, s);
        RunEscaped(t[1..], b, s.(field := s.field + "\""));
      } else {
        assert Escape(t) + b == [t[0]] + rest;
        RunChar(t[0], rest, s);
        RunEscaped(t[1..], b, s.(field := s.field + [t[0]]));
      }
    }
  }

  /** Outside quotes, a bare text without special characters goes into the field. */
  lemma {:induction false} RunPlain(t: string, b: string, s: ScanState)
    requires !s.insideQuote
    requires forall k | 0 <= k < |t| :: !IsSpecial(t[k])
    ensures Run(t + b, s) == Run(b, s.(field := s.field + t))
    decreases |t|
  {
    if t == [] {
      assert t + b == b;
      assert s.field + t == s.field;
    } else {
      assert t + b == [t[0]] + (t[1..] + b);
      RunChar(t[0], t[1..] + b, s);
      assert s.field + [t[0]] + t[1..] == s.field + t;
      RunPlain(t[1..], b, s.(field := s.field + [t[0]]));
    }
  }

  /** One cell read from the start of a field. */
  lemma RunCell(c: Cell, b: string, s: ScanState)
    requires !s.insideQuote && s.field == ""
    requires GoodCell(c)
    requires b == [] || b[0] != '"'
    ensures Run(EncodeCell(c) + b, s) == Run(b, s.(field := c.text))
  {
    match c
    case Plain(t) =>
      RunPlain(t, b, s);
      assert s.field + t == t;
    case Quoted(t) =>
      var close := "\"" + b;
      var inner := Escape(t) + close;
      assert EncodeCell(c) + b == "\"" + inner;
      RunLoneQuote(inner, s);
      var s1 := s.(insideQuote := true);
      RunEscaped(t, close, s1);
      var s2 := s1.(field := t);
      assert s1.(field := s1.field + t) == s2;
      RunLoneQuote(b, s2);
      assert s2.(insideQuote := false) == s.(field := t);
  }

  /** A cell and the comma after it: the cell's value joins the row. */
  lemma RunCellComma(c: Cell, tail: string, s: ScanState)
    requires !s.insideQuote && s.field == ""
    requires GoodCell(c)
    ensures Run(EncodeCell(c) + ("," + tail), s) == Run(tail, s.(row := s.row + [c.text]))
  {
    RunCell(c, "," + tail, s);
    var s1 := s.(field := c.text);
    RunComma(tail, s1);
    TrimTrimmed(c.text);
    assert EndField(s1) == s.(row := s.row + [c.text]);
  }

  lemma EncodeCellsCons(cs: seq<Cell>, b: string)
    requires |cs| >= 2
    ensures EncodeCells(cs) + b == EncodeCell(cs[0]) + ("," + (EncodeCells(cs[1..]) + b))
  {
    Regroup(EncodeCell(cs[0]), ",", EncodeCells(cs[1..]), b);
  }

  lemma Regroup(w: string, x: string, y: string, z: string)
    ensures w + x + y + z == w + (x + (y + z))
  {
  }

  lemma ValuesCons(cs: seq<Cell>)
    requires |cs| >= 2
    ensures [cs[0].text] + Values(cs[1..][..|cs| - 2]) == Values(cs[..|cs| - 1])
  {
    assert cs[1..][..|cs| - 2] == cs[1..|cs| - 1];
  }

  lemma GoodCellsTail(cs: seq<Cell>)
    requires |cs| >= 1 && GoodCells(cs)
    ensures GoodCells(cs[1..]) && GoodCell(cs[0])
  {
    forall k | 0 <= k < |cs| - 1 ensures GoodCell(cs[1..][k]) {
      assert cs[1..][k] == cs[k + 1];
    }
  }

  /** A cell and its comma, followed by what the rest of the line does. */
  lemma RunCellsStep(cs: seq<Cell>, b: string, row: Row, rows: seq<Row>)
    requires |cs| >= 2 && GoodCell(cs[0])
    requires Run(EncodeCells(cs[1..]) + b, ScanState(false, "", row + [cs[0].text], rows)) ==
             Run(b, ScanState(false, cs[|cs| - 1].text, row + [cs[0].text] + Values(cs[1..][..|cs| - 2]), rows))
    ensures Run(EncodeCells(cs) + b, ScanState(false, "", row, rows)) ==
            Run(b, ScanState(false, cs[|cs| - 1].text, row + Values(cs[..|cs| - 1]), rows))
  {
    EncodeCellsCons(cs, b);
    RunCellComma(cs[0], EncodeCells(cs[1..]) + b, ScanState(false, "", row, rows));
    ValuesCons(cs);
    assert row + [cs[0].text] + Values(cs[1..][..|cs| - 2]) == row + Values(cs[..|cs| - 1]);
  }

  /** The cells of one line: all but the last join the row, the last stays pending as the field. */
  lemma {:induction false} RunCells(cs: seq<Cell>, b: string, row: Row, rows: seq<Row>)
    requires |cs| >= 1 && GoodCells(cs)
    requires b == [] || b[0] == '\n' || b[0] == '\r'
    ensures Run(EncodeCells(cs) + b, ScanState(false, "", row, rows)) ==
            Run(b, ScanState(false, cs[|cs| - 1].text, row + Values(cs[..|cs| - 1]), rows))
    decreases |cs|
  {
    GoodCellsTail(cs);
    if |cs| == 1 {
      RunCell(cs[0], b, ScanState(false, "", row, rows));
      assert row + Values(cs[..0]) == row;
    } else {
      var tail := cs[1..];
      RunCells(tail, b, row + [cs[0].text], rows);
      assert tail[|tail| - 1] == cs[|cs| - 1];
      RunCellsStep(cs, b, row, rows);
    }
  }

  /** The encoding of a line's cells is never empty and never starts with a LF. */
  lemma EncodeCellsStart(cs: seq<Cell>)
    requires |cs| >= 1 && GoodCell(cs[0]) && !IsBlankRow(Values(cs))
    ensures EncodeCells(cs) != [] && EncodeCells(cs)[0] != '\n'
  {
    if |cs| == 1 {
      assert Values(cs)[0] == cs[0].text;
    } else {
      assert EncodeCells(cs) == EncodeCell(cs[0]) + ("," + EncodeCells(cs[1..]));
    }
  }

  /** The text a well-formed file holds after a line never starts with a LF. */
  lemma EncodeStart(lines: seq<Line>)
    requires WellFormed(lines)
    ensures Encode(lines) == [] || Encode(lines)[0] != '\n'
  {
    if lines != [] {
      var cs := lines[0].cells;
      assert |cs| >= 1 && GoodCells(cs) && !IsBlankRow(Values(cs));
      assert GoodCell(cs[0]);
      EncodeCellsStart(cs);
      var e := EncodeCells(cs);
      assert Encode(lines) == e + (Terminator(lines[0].ending) + Encode(lines[1..]));
    }
  }

  lemma WellFormedTail(lines: seq<Line>)
    requires |lines| >= 1 && WellFormed(lines)
    ensures WellFormed(lines[1..])
  {
    forall k | 0 <= k < |lines| - 1
      ensures lines[1..][k] == lines[k + 1]
    {
    }
  }

  /** Closing a complete row whose last field is still pending. */
  lemma CloseRow(row: Row, rows: seq<Row>)
    requires |row| >= 1 && !IsBlankRow(row) && IsTrimmed(row[|row| - 1])
    ensures EndRow(ScanState(false, row[|row| - 1], row[..|row| - 1], rows)) == ScanState(false, "", [], rows + [row])
    ensures Finish(ScanState(false, row[|row| - 1], row[..|row| - 1], rows)) == rows + [row]
  {
    TrimTrimmed(row[|row| - 1]);
    assert row[..|row| - 1] + [Trim(row[|row| - 1])] == row;
    if |row| == 1 {
      assert row[0] != "";
    }
  }

  lemma RunCRLF(rest: string, s: ScanState)
    requires !s.insideQuote
    ensures Run("\r\n" + rest, s) == Run(rest, EndRow(s))
  {
    assert "\r\n" + rest == "\r" + ("\n" + rest);
    RunCR("\n" + rest, s);
    RunLF(rest, s);
  }

  /** The end of a line: the pending field closes the row, which joins the output. */
  lemma RunLineEnd(e: LineEnding, rest: string, s: ScanState, t: ScanState)
    requires !s.insideQuote && EndRow(s) == t && Finish(s) == t.rows
    requires t == ScanState(false, "", [], t.rows)
    requires e == NoEnd ==> rest == []
    requires rest == [] || rest[0] != '\n'
    ensures Run(Terminator(e) + rest, s) == Run(rest, t)
  {
    match e
    case LF =>
      RunLF(rest, s);
    case CRLF =>
      RunCRLF(rest, s);
    case CR =>
      RunCR(rest, s);
    case NoEnd =>
      assert Terminator(e) + rest == [];
  }

  /** What follows a line's cells starts with its line break, or is empty. */
  lemma TerminatorStart(e: LineEnding, rest: string)
    requires e == NoEnd ==> rest == []
    ensures var b := Terminator(e) + rest; b == [] || b[0] == '\n' || b[0] == '\r'
  {
  }

  /** The last value of a line, and the values before it. */
  lemma ValuesLast(cs: seq<Cell>)
    requires |cs| >= 1 && GoodCells(cs)
    ensures |Values(cs)| == |cs|
    ensures Values(cs)[|cs| - 1] == cs[|cs| - 1].text && IsTrimmed(cs[|cs| - 1].text)
    ensures [] + Values(cs[..|cs| - 1]) == Values(cs)[..|cs| - 1]
  {
    assert GoodCell(cs[|cs| - 1]);
  }

  /** The cells of a line, read from the start of a row: the last value stays pending. */
  lemma LineCells(cs: seq<Cell>, b: string, rows: seq<Row>)
    requires |cs| >= 1 && GoodCells(cs)
    requires b == [] || b[0] == '\n' || b[0] == '\r'
    ensures Run(EncodeCells(cs) + b, ScanState(false, "", [], rows)) ==
            Run(b, ScanState(false, Values(cs)[|cs| - 1], Values(cs)[..|cs| - 1], rows))
  {
    ValuesLast(cs);
    RunCells(cs, b, [], rows);
  }

  /** The line break after a line's cells, with the last value pending. */
  lemma LineClose(cs: seq<Cell>, e: LineEnding, rest: string, rows: seq<Row>)
    requires |cs| >= 1 && GoodCells(cs) && !IsBlankRow(Values(cs))
    requires e == NoEnd ==> rest == []
    requires rest == [] || rest[0] != '\n'
    ensures Run(Terminator(e) + rest, ScanState(false, Values(cs)[|cs| - 1], Values(cs)[..|cs| - 1], rows)) ==
            Run(rest, ScanState(false, "", [], rows + [Values(cs)]))
  {
    var row := Values(cs);
    ValuesLast(cs);
    CloseRow(row, rows);
    RunLineEnd(e, rest, ScanState(false, row[|row| - 1], row[..|row| - 1], rows), ScanState(false, "", [], rows + [row]));
  }

  /** One line, given by its cells, its ending and the text after it. */
  lemma RunLineParts(cs: seq<Cell>, e: LineEnding, rest: string, rows: seq<Row>)
    requires |cs| >= 1 && GoodCells(cs) && !IsBlankRow(Values(cs))
    requires e == NoEnd ==> rest == []
    requires rest == [] || rest[0] != '\n'
    ensures Run(EncodeCells(cs) + (Terminator(e) + rest), ScanState(false, "", [], rows)) ==
            Run(rest, ScanState(false, "", [], rows + [Values(cs)]))
  {
    TerminatorStart(e, rest);
    LineCells(cs, Terminator(e) + rest, rows);
    LineClose(cs, e, rest, rows);
  }

  lemma EncodeCons(lines: seq<Line>)
    requires |lines| >= 1
    ensures Encode(lines) == EncodeCells(lines[0].cells) + (Terminator(lines[0].ending) + Encode(lines[1..]))
  {
  }

  /** What a well-formed file guarantees about its first line and the text after it. */
  lemma FirstLine(lines: seq<Line>)
    requires |lines| >= 1 && WellFormed(lines)
    ensures var cs := lines[0].cells; |cs| >= 1 && GoodCells(cs) && !IsBlankRow(Values(cs))
    ensures lines[0].ending == NoEnd ==> Encode(lines[1..]) == []
    ensures Encode(lines[1..]) == [] || Encode(lines[1..])[0] != '\n'
  {
    assert |lines[0].cells| >= 1;
    WellFormedTail(lines);
    EncodeStart(lines[1..]);
  }

  /** One line: its row of values joins the output (for an unterminated last line,
      through the final flush). */
  lemma RunLine(lines: seq<Line>, rows: seq<Row>)
    requires |lines| >= 1 && WellFormed(lines)
    ensures Run(Encode(lines), ScanState(false, "", [], rows)) ==
            Run(Encode(lines[1..]), ScanState(false, "", [], rows + [Values(lines[0].cells)]))
  {
    EncodeCons(lines);
    FirstLine(lines);
    RunLineParts(lines[0].cells, lines[0].ending, Encode(lines[1..]), rows);
  }

  lemma {:induction false} RunLines(lines: seq<Line>, rows: seq<Row>)
    requires WellFormed(lines)
    ensures Run(Encode(lines), ScanState(false, "", [], rows)) == rows + Table(lines)
    decreases |lines|
  {
    if lines == [] {
      assert Table(lines) == [];
    } else {
      var row := Values(lines[0].cells);
      RunLine(lines, rows);
      WellFormedTail(lines);
      RunLines(lines[1..], rows + [row]);
      TableCons(lines, rows);
    }
  }

  lemma TableCons(lines: seq<Line>, rows: seq<Row>)
    requires |lines| >= 1
    ensures rows + [Values(lines[0].cells)] + Table(lines[1..]) == rows + Table(lines)
  {
    assert [Values(lines[0].cells)] + Table(lines[1..]) == Table(lines);
  }

  /** Round trip: tokenizing what a CSV writer produced gives the writer's table back,
      whatever mixture of LF, CRLF and lone CR ends its lines, with or without a final
      line break, and whatever commas, quotes and line breaks its quoted fields hold. */
  lemma TokenizeEncode(lines: seq<Line>)
    requires WellFormed(lines)
    ensures Tokenize(Encode(lines)) == Table(lines)
  {
    RunLines(lines, []);
  }

  /** A field a writer may leave bare: trimmed, with no special character. */
  predicate BareField(f: string) {
    IsTrimmed(f) && forall k | 0 <= k < |f| :: !IsSpecial(f[k])
  }

  /** A row a writer may put on a line of its own with bare fields. */
  predicate BareRow(row: Row) {
    |row| >= 1 && !IsBlankRow(row) && forall j | 0 <= j < |row| :: BareField(row[j])
  }

  /** A table written out with bare fields, each row on a line ended by `\n`. */
  function BareLines(rows: seq<Row>): (lines: seq<Line>)
    ensures |lines| == |rows|
  {
    seq(|rows|, k requires 0 <= k < |rows| =>
      Line(seq(|rows[k]|, j requires 0 <= j < |rows[k]| => Plain(rows[k][j])), LF))
  }

  /** Such a table tokenizes back to itself. */
  lemma BareTable(rows: seq<Row>)
    requires forall k | 0 <= k < |rows| :: BareRow(rows[k])
    ensures Tokenize(Encode(BareLines(rows))) == rows
  {
    var lines := BareLines(rows);
    forall k | 0 <= k < |rows|
      ensures Values(lines[k].cells) == rows[k]
    {
    }
    assert WellFormed(lines);
    TokenizeEncode(lines);
  }
}
