/**
 * The hand-written CSV tokenizer at the start of `parseCSV`: a single forward
 * scan with one character of lookahead, a lenient variant of the quoting rules
 * of section 2 of RFC 4180.
 *
 * `Run` is the scan written as a function over the text still to be read;
 * `TokenizeText` is the loop the source runs, proved to compute `Tokenize`.
 */
module Tokenizer {
  import opened JsString

  /** One record: its fields, in order, each already trimmed by the scan. */
  type Row = seq<string>

  /** The four variables the source's loop updates. */
  datatype ScanState = ScanState(insideQuote: bool, field: string, row: Row, rows: seq<Row>)

  const Start := ScanState(false, "", [], [])

  /** A row of exactly one empty field: what a blank line produces. */
  predicate IsBlankRow(row: Row) {
    |row| == 1 && row[0] == ""
  }

  /** An unquoted comma: the trimmed field joins the row and a new field starts. */
  function EndField(s: ScanState): ScanState {
    s.(row := s.row + [Trim(s.field)], field := "")
  }

  /** An unquoted line break: the trimmed field closes the row, which is kept
      unless it is blank; a new row starts. */
  function EndRow(s: ScanState): ScanState {
    var row := s.row + [Trim(s.field)];
    ScanState(s.insideQuote, "", [], if IsBlankRow(row) then s.rows else s.rows + [row])
  }

  /** End of input: a pending field or row becomes the last row. */
  function Finish(s: ScanState): seq<Row> {
    if s.field != "" || |s.row| > 0 then s.rows + [s.row + [Trim(s.field)]] else s.rows
  }

  /** One move of the scan at the head of `rest`: how many characters it consumes
      (two for an escaped quote, otherwise one) and the state it leaves. */
  function Step(rest: string, s: ScanState): (r: (nat, ScanState))
    requires rest != []
    ensures 1 <= r.0 <= |rest|
  {
    var c := rest[0];
    if c == '"' then
      if s.insideQuote && |rest| > 1 && rest[1] == '"' then
        (2, s.(field := s.field + "\""))
      else
        (1, s.(insideQuote := !s.insideQuote))
    else if c == ',' && !s.insideQuote then
      (1, EndField(s))
    else if (c == '\n' || c == '\r') && !s.insideQuote then
      if c == '\r' && |rest| > 1 && rest[1] == '\n' then
        (1, s)
      else
        (1, EndRow(s))
    else
      (1, s.(field := s.field + [c]))
  }

  /** The rows the scan produces from state `s` when `rest` is the text still unread. */
  function Run(rest: string, s: ScanState): seq<Row>
    decreases |rest|
  {
    if rest == [] then Finish(s)
    else
      var r := Step(rest, s);
      Run(rest[r.0..], r.1)
  }

  /** The rows of `text`; total: malformed quoting never fails. */
  function Tokenize(text: string): seq<Row> {
    Run(text, Start)
  }

  /** The source's tokenizer loop, with its manual skip over an escaped quote
      and over the CR of a CRLF pair. */
  method TokenizeText(text: string) returns (rows: seq<Row>)
    ensures rows == Tokenize(text)
  {
    rows := [];
    var currentRow: Row := [];
    var currentField := "";
    var insideQuote := false;
    var i := 0;
    while i < |text|
      invariant 0 <= i <= |text|
      invariant Run(text[i..], ScanState(insideQuote, currentField, currentRow, rows)) == Tokenize(text)
      decreases |text| - i
    {
      var c := text[i];
      assert text[i..][1..] == text[i + 1..];
      if c == '"' {
        if insideQuote && i + 1 < |text| && text[i + 1] == '"' {
          assert text[i..][2..] == text[i + 2..];
          currentField := currentField + "\"";
          i := i + 1;
        } else {
          insideQuote := !insideQuote;
        }
      } else if c == ',' && !insideQuote {
        currentRow := currentRow + [Trim(currentField)];
        currentField := "";
      } else if (c == '\n' || c == '\r') && !insideQuote {
        if c == '\r' && i + 1 < |text| && text[i + 1] == '\n' {
          i := i + 1;
          continue;
        }
        currentRow := currentRow + [Trim(currentField)];
        if |currentRow| > 0 && (|currentRow| > 1 || currentRow[0] != "") {
          rows := rows + [currentRow];
        }
        currentRow := [];
        currentField := "";
      } else {
        currentField := currentField + [c];
      }
      i := i + 1;
    }
    if currentField != "" || |currentRow| > 0 {
      currentRow := currentRow + [Trim(currentField)];
      rows := rows + [currentRow];
    }
  }
}
