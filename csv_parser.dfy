/**
 * `parseCSV` as a whole: the text of a brokerage export is tokenized, its
 * first row is taken as the header, the later rows are aggregated, and the
 * totals become the year's summary.
 *
 * The source reads the header as `rows[0]`; on a text that yields no row at
 * all that is `undefined` and the first `headers.indexOf` throws. The model
 * returns that as a `Failure`.
 */
module CsvParser {
  import opened Wrappers
  import opened Tokenizer
  import opened Aggregator
  import opened Summary
  import opened AggregatorProperties
  import opened TokenizerProperties
  import opened Amount
  import opened JsNumber
  import opened JsString

  const NoHeader := "TypeError: the text has no header row"

  /** `parseCSV(file, currentPortfolioValue)` once `file.text()` has given `text`. */
  function ParseCsv(text: string, currentValue: real): Result<TradingYear, string> {
    var rows := Tokenize(text);
    if rows == [] then Failure(NoHeader)
    else Success(Summarize(Aggregate(rows), currentValue))
  }

  /** The source's body: the tokenizer loop, the aggregation loop, then the summary. */
  method ParseCSV(text: string, currentPortfolioValue: real) returns (r: Result<TradingYear, string>)
    ensures r == ParseCsv(text, currentPortfolioValue)
    ensures r.Failure? <==> Tokenize(text) == []
  {
    var rows := TokenizeText(text);
    if |rows| == 0 {
      return Failure(NoHeader);
    }
    var totalDeposits, totalWithdrawals, totalTrades, stockCounts := AggregateRows(rows);
    var sortedStocks := SortByCount(stockCounts);
    var topTicker := if |sortedStocks| > 0 then sortedStocks[0].ticker else "N/A";
    var netPnL := currentPortfolioValue - (totalDeposits - totalWithdrawals);
    var pnlPercentage := if totalDeposits > 0.0 then (netPnL / totalDeposits) * 100.0 else 0.0;
    var topStock := Stock(topTicker, topTicker, 0.0, 0.0, "#00C805");
    var archetype := ValueInvestor;
    if totalTrades > 1000 {
      archetype := DayTrader;
    } else if totalTrades < 20 {
      archetype := DiamondHands;
    } else if totalTrades > 200 {
      archetype := FOMOBuyer;
    }
    assert topStock == TopStock(TopTicker(stockCounts));
    assert archetype == ArchetypeOf(totalTrades);
    assert pnlPercentage == PnlPercentage(netPnL, totalDeposits);
    r := Success(TradingYear(totalDeposits, totalWithdrawals, netPnL, Round2(pnlPercentage),
                             totalTrades, topStock, topStock, archetype));
  }

  // ---------------------------------------------------------------------------
  // What parseCSV promises
  // ---------------------------------------------------------------------------

  /** The summary of any text with a header row: every field is determined by the
      data rows -- the trade count, the money totals as sums of the cash-flow rows,
      the profit against the current value, the percentage to two decimals, and a
      top instrument that is `"N/A"` when no row picked an instrument and otherwise
      one that some row picked at least as often as any other (an instrument
      literally named `"N/A"` cannot be told apart, see `TopTickerNamedNA`);
      `ParseCsvTopStock` states the top instrument in full, tie-break included. */
  lemma ParseCsvSpec(text: string, currentValue: real)
    requires Tokenize(text) != []
    ensures var rows := Tokenize(text);
            var c, w, data := ResolveColumns(rows[0]), |rows[0]|, rows[1..];
            var r := ParseCsv(text, currentValue);
            && r.Success?
            && r.value.totalTrades == TradeCount(c, w, data)
            && r.value.totalDeposits == Inflow(c, w, data)
            && r.value.totalWithdrawals == Outflow(c, w, data)
            && r.value.netPnL == currentValue - NetFlow(c, w, data)
            && r.value.archetype == ArchetypeOf(TradeCount(c, w, data))
            && ((forall u :: PickCount(c, w, data, u) == 0) ==> r.value.topStock.symbol == "N/A")
            && (r.value.topStock.symbol != "N/A" ==> PickCount(c, w, data, r.value.topStock.symbol) > 0)
            && (r.value.topStock.symbol != "N/A" ==>
                  forall u :: PickCount(c, w, data, u) <= PickCount(c, w, data, r.value.topStock.symbol))
            && (Inflow(c, w, data) == 0.0 ==> r.value.pnlPercentage == 0.0)
            && (Inflow(c, w, data) > 0.0 ==>
                  Abs(r.value.pnlPercentage - r.value.netPnL / Inflow(c, w, data) * 100.0) <= 0.005)
  {
    var rows := Tokenize(text);
    AggregateSpec(rows);
    ParseCsvTopStock(text, currentValue);
  }

  /** The top instrument of any text with a header row: `"N/A"` when no row picks an
      instrument; otherwise one that some row picks, at least as often as any other,
      and, among those picked as often, the one picked first. */
  lemma ParseCsvTopStock(text: string, currentValue: real)
    requires Tokenize(text) != []
    ensures var rows := Tokenize(text);
            var c, w, data := ResolveColumns(rows[0]), |rows[0]|, rows[1..];
            var s := ParseCsv(text, currentValue).value.topStock.symbol;
            && ((forall u :: PickCount(c, w, data, u) == 0) ==> s == "N/A")
            && ((exists u :: PickCount(c, w, data, u) > 0) ==>
                  && PickCount(c, w, data, s) > 0
                  && (forall u :: PickCount(c, w, data, u) <= PickCount(c, w, data, s))
                  && (forall u | u != s && PickCount(c, w, data, u) == PickCount(c, w, data, s) ::
                        FirstPick(c, w, data, s) < FirstPick(c, w, data, u)))
  {
    AggregateTop(Tokenize(text));
  }

  /** The same, stated on the rows of a table. */
  lemma AggregateTop(rows: seq<Row>)
    requires rows != []
    ensures var c, w, data := ResolveColumns(rows[0]), |rows[0]|, rows[1..];
            var s := TopTicker(Aggregate(rows).counts);
            && ((forall u :: PickCount(c, w, data, u) == 0) ==> s == "N/A")
            && ((exists u :: PickCount(c, w, data, u) > 0) ==>
                  && PickCount(c, w, data, s) > 0
                  && (forall u :: PickCount(c, w, data, u) <= PickCount(c, w, data, s))
                  && (forall u | u != s && PickCount(c, w, data, u) == PickCount(c, w, data, s) ::
                        FirstPick(c, w, data, s) < FirstPick(c, w, data, u)))
  {
    FoldTop(ResolveColumns(rows[0]), |rows[0]|, rows[1..]);
  }

  /** The top ticker after the pass over some data rows is the most picked instrument,
      the first picked of those picked as often, or `"N/A"` when none is picked. */
  lemma FoldTop(c: Columns, w: nat, data: seq<Row>)
    requires Within(c, w)
    ensures var s := TopTicker(Fold(Zero, c, w, data).counts);
            && ((forall u :: PickCount(c, w, data, u) == 0) ==> s == "N/A")
            && ((exists u :: PickCount(c, w, data, u) > 0) ==>
                  && PickCount(c, w, data, s) > 0
                  && (forall u :: PickCount(c, w, data, u) <= PickCount(c, w, data, s))
                  && (forall u | u != s && PickCount(c, w, data, u) == PickCount(c, w, data, s) ::
                        FirstPick(c, w, data, s) < FirstPick(c, w, data, u)))
  {
    var counts := Fold(Zero, c, w, data).counts;
    FoldKeepsGood(Zero, c, w, data);
    forall u ensures Lookup(counts, u) == PickCount(c, w, data, u) {
      FoldCounts(Zero, c, w, data, u);
    }
    if counts == [] {
      TopTickerSpec(counts);
    } else {
      KeyOrder(c, w, data);
      TopEntry(counts);
      var i := FirstMax(counts);
      var s := counts[i].ticker;
      assert Tickers(counts)[i] == s;
      forall u | u != s && PickCount(c, w, data, u) == PickCount(c, w, data, s)
        ensures FirstPick(c, w, data, s) < FirstPick(c, w, data, u)
      {
        if u !in Tickers(counts) {
          LookupAbsent(counts, u);
        }
        var j :| 0 <= j < |counts| && Tickers(counts)[j] == u;
        assert j != i && !(j < i);
      }
    }
  }

  /** In a record of distinct keys, the top ticker is the key of the first largest
      entry, each entry's count is what a lookup of its key finds, and no lookup finds
      more than the top's count. */
  lemma TopEntry(counts: seq<Entry>)
    requires counts != [] && Distinct(Tickers(counts))
    ensures TopTicker(counts) == counts[FirstMax(counts)].ticker
    ensures forall j | 0 <= j < |counts| :: Lookup(counts, counts[j].ticker) == counts[j].count
    ensures forall u :: Lookup(counts, u) <= counts[FirstMax(counts)].count
  {
    SortHead(counts);
    forall j | 0 <= j < |counts| ensures Lookup(counts, counts[j].ticker) == counts[j].count {
      LookupAt(counts, j);
    }
    forall u ensures Lookup(counts, u) <= counts[FirstMax(counts)].count {
      if u in Tickers(counts) {
        var j :| 0 <= j < |counts| && Tickers(counts)[j] == u;
      } else {
        LookupAbsent(counts, u);
      }
    }
  }

  /** The text of an empty file has no header row. */
  lemma EmptyFileFails(currentValue: real)
    ensures ParseCsv("", currentValue) == Failure(NoHeader)
  {
  }

  /** Failure happens exactly when the text yields no row at all. */
  lemma ParseCsvFails(text: string, currentValue: real)
    ensures ParseCsv(text, currentValue).Failure? <==> Tokenize(text) == []
  {
  }

  lemma LoneField(f: string)
    requires f != []
    ensures Run("", ScanState(false, f, [], [])) == [[Trim(f)]]
  {
    var row: Row := [];
    var rows: seq<Row> := [];
    assert row + [Trim(f)] == [Trim(f)];
    assert rows + [[Trim(f)]] == [[Trim(f)]];
  }

  /** Spaces outside quotes only lengthen the pending field. */
  lemma {:induction false} RunSpaces(rest: string, f: string)
    requires forall k | 0 <= k < |rest| :: rest[k] == ' '
    ensures Run(rest, ScanState(false, f, [], [])) == Run("", ScanState(false, f + rest, [], []))
    decreases |rest|
  {
    if rest != [] {
      assert rest == [' '] + rest[1..];
      RunChar(' ', rest[1..], ScanState(false, f, [], []));
      assert f + [' '] + rest[1..] == f + rest;
      RunSpaces(rest[1..], f + [' ']);
    } else {
      assert f + rest == f;
    }
  }

  /** A line of blanks is one row holding one empty field. */
  lemma BlankTokens(text: string)
    requires text != [] && forall k | 0 <= k < |text| :: text[k] == ' '
    ensures Tokenize(text) == [[""]]
  {
    RunSpaces(text, "");
    assert "" + text == text;
    LoneField(text);
    TrimAllSpace(text);
  }

  /** A line of blanks ended by a line break is dropped as a blank row, so there is no
      header and the text fails. */
  lemma BlankLineFails(currentValue: real)
    ensures ParseCsv(" \n", currentValue) == Failure(NoHeader)
  {
    var s := ScanState(false, " ", [], []);
    assert Start.field + [' '] == " ";
    assert Step(" \n", Start) == (1, s);
    assert " \n"[1..] == "\n";
    assert Trim(" ") == "" by {
      TrimAllSpace(" ");
    }
    assert Step("\n", s) == (1, Start);
    assert Tokenize(" \n") == Run("", Start) == [];
  }

  /** A line of blanks is a header of one empty name, not a missing header. */
  lemma BlankTextSucceeds(text: string, currentValue: real)
    requires text != [] && forall k | 0 <= k < |text| :: text[k] == ' '
    ensures ParseCsv(text, currentValue).Success?
  {
    BlankTokens(text);
    ParseCsvFails(text, currentValue);
  }

  /** A text with only its header row: zero totals, no top instrument, the profit is
      the whole current value and the archetype that of no trades at all. */
  lemma HeaderOnlySummary(text: string, currentValue: real)
    requires |Tokenize(text)| == 1
    ensures ParseCsv(text, currentValue) ==
            Success(TradingYear(0.0, 0.0, currentValue, 0.0, 0, TopStock("N/A"), TopStock("N/A"), DiamondHands))
  {
    var rows := Tokenize(text);
    assert rows == [rows[0]];
    HeaderOnly(rows[0]);
    assert Round2(0.0) == 0.0;
  }

  // ---------------------------------------------------------------------------
  // A worked year
  // ---------------------------------------------------------------------------

  const Header: Row := ["Trans Code", "Amount", "Instrument"]

  /** `n` copies of `row`. */
  function Repeat(row: Row, n: nat): (r: seq<Row>)
    ensures |r| == n && forall k | 0 <= k < n :: r[k] == row
  {
    if n == 0 then [] else [row] + Repeat(row, n - 1)
  }

  /** Five buys and three sells of AAPL, each for `price`. */
  function Trades(price: string): seq<Row> {
    Repeat(["Buy", price, "AAPL"], 5) + Repeat(["Sell", price, "AAPL"], 3)
  }

  /** The header, a deposit by ACH, then the trades. */
  function Year(deposit: string, price: string): seq<Row> {
    [Header] + ([["ACH", deposit, ""]] + Trades(price))
  }

  /** The deposit text of the worked year reads as 1000. */
  lemma DepositAmount()
    ensures ParseAmount("$1000") == Some(1000.0)
  {
    assert StripCurrency("$1000") == "1000";
    assert DigitsValue("1000") == 1000 by {
      assert "1000"[..3] == "100" && "100"[..2] == "10" && "10"[..1] == "1" && "1"[..0] == "";
    }
    assert "1000" + "" == "1000";
    ParseFloatInteger("1000", "");
  }

  lemma YearColumns()
    ensures ResolveColumns(Header) == Columns(0, 1, 2)
  {
    assert Header[..1] == ["Trans Code"];
  }

  /** A row that trades AAPL under the columns of `Header`. */
  predicate TradesAapl(row: Row) {
    |row| == 3 && IsTrade(row[0]) && !IsCashFlow(row[0]) && row[0] != Expiry && row[2] == "AAPL"
  }

  lemma TradeRows(price: string)
    ensures TradesAapl(["Buy", price, "AAPL"]) && TradesAapl(["Sell", price, "AAPL"])
  {
  }

  /** Rows that all trade AAPL: each is a trade and a pick of AAPL, and none moves money. */
  lemma {:induction false} AaplTrades(rows: seq<Row>, u: string)
    requires forall k | 0 <= k < |rows| :: TradesAapl(rows[k])
    ensures TradeCount(Columns(0, 1, 2), 3, rows) == |rows|
    ensures PickCount(Columns(0, 1, 2), 3, rows, u) == if u == "AAPL" then |rows| else 0
    ensures Inflow(Columns(0, 1, 2), 3, rows) == 0.0 && Outflow(Columns(0, 1, 2), 3, rows) == 0.0
    decreases |rows|
  {
    if rows != [] {
      var c := Columns(0, 1, 2);
      assert CashAmount(c, 3, rows[0]) == 0.0;
      AaplTrades(rows[1..], u);
    }
  }

  /** The deposit row: no trade, no pick, 1000 in. */
  lemma DepositRow(deposit: string, rest: seq<Row>, u: string)
    requires ParseAmount(deposit) == Some(1000.0)
    ensures var c, data := Columns(0, 1, 2), [["ACH", deposit, ""]] + rest;
            && TradeCount(c, 3, data) == TradeCount(c, 3, rest)
            && PickCount(c, 3, data, u) == PickCount(c, 3, rest, u)
            && Inflow(c, 3, data) == 1000.0 + Inflow(c, 3, rest)
            && Outflow(c, 3, data) == Outflow(c, 3, rest)
  {
    var c := Columns(0, 1, 2);
    var row: Row := ["ACH", deposit, ""];
    assert ([row] + rest)[1..] == rest;
    assert IsCashFlow(row[0]) && !IsTrade(row[0]);
    assert CashAmount(c, 3, row) == 1000.0;
  }

  /** One deposit of 1000 and eight trades of AAPL. */
  lemma YearTotals(deposit: string, price: string, u: string)
    requires ParseAmount(deposit) == Some(1000.0)
    ensures var c, data := ResolveColumns(Year(deposit, price)[0]), Year(deposit, price)[1..];
            && |Year(deposit, price)[0]| == 3
            && TradeCount(c, 3, data) == 8
            && PickCount(c, 3, data, u) == (if u == "AAPL" then 8 else 0)
            && Inflow(c, 3, data) == 1000.0
            && Outflow(c, 3, data) == 0.0
  {
    YearColumns();
    var trades := Trades(price);
    assert Year(deposit, price)[1..] == [["ACH", deposit, ""]] + trades;
    TradeRows(price);
    assert forall k | 0 <= k < |trades| :: TradesAapl(trades[k]) by {
      var buys := Repeat(["Buy", price, "AAPL"], 5);
      assert forall k | 5 <= k < 8 :: trades[k] == Repeat(["Sell", price, "AAPL"], 3)[k - 5];
      assert forall k | 0 <= k < 5 :: trades[k] == buys[k];
    }
    AaplTrades(trades, u);
    DepositRow(deposit, trades, u);
  }

  /** A frequency record whose only key is `u` has `u` on top. */
  lemma SoleTicker(counts: seq<Entry>, u: string)
    requires forall v :: v in Tickers(counts) <==> v == u
    ensures TopTicker(counts) == u
  {
    assert u in Tickers(counts);
    TopTickerSpec(counts);
    var i :| 0 <= i < |counts| && TopTicker(counts) == counts[i].ticker;
    assert Tickers(counts)[i] in Tickers(counts);
  }

  /** When every picked row picks the same instrument, that instrument is on top. */
  lemma SoleInstrument(rows: seq<Row>, u: string)
    requires rows != []
    requires var c, w, data := ResolveColumns(rows[0]), |rows[0]|, rows[1..];
             PickCount(c, w, data, u) > 0 && forall v | v != u :: PickCount(c, w, data, v) == 0
    ensures TopTicker(Aggregate(rows).counts) == u
  {
    AggregateSpec(rows);
    SoleTicker(Aggregate(rows).counts, u);
  }

  /** The totals of the year: 1000 in, nothing out, eight trades, AAPL the top ticker. */
  lemma YearAggregate(deposit: string, price: string)
    requires ParseAmount(deposit) == Some(1000.0)
    ensures var t := Aggregate(Year(deposit, price));
            t.deposits == 1000.0 && t.withdrawals == 0.0 && t.trades == 8 && TopTicker(t.counts) == "AAPL"
  {
    var rows := Year(deposit, price);
    AggregateSpec(rows);
    YearTotals(deposit, price, "AAPL");
    forall v | v != "AAPL"
      ensures PickCount(ResolveColumns(rows[0]), |rows[0]|, rows[1..], v) == 0
    {
      YearTotals(deposit, price, v);
    }
    SoleInstrument(rows, "AAPL");
  }

  /** The summary of those totals on an account worth 1200. */
  lemma YearRecord(t: Totals)
    requires t.deposits == 1000.0 && t.withdrawals == 0.0 && t.trades == 8 && TopTicker(t.counts) == "AAPL"
    ensures Summarize(t, 1200.0) ==
            TradingYear(1000.0, 0.0, 200.0, 20.0, 8, TopStock("AAPL"), TopStock("AAPL"), DiamondHands)
  {
    assert NetPnL(1200.0, 1000.0, 0.0) == 200.0;
    assert PnlPercentage(200.0, 1000.0) == 20.0;
    assert Round2(20.0) == 20.0 by {
      assert (Abs(20.0) * 100.0 + 0.5).Floor == 2000;
    }
  }

  /** The whole year, for a deposit text that reads as 1000 (`"$1000"` is one, by
      `DepositAmount`) and whatever the trades cost: 1000 deposited, nothing withdrawn,
      eight trades, AAPL on top, a profit of 200 on an account now worth 1200, that is
      20 percent, and fewer than twenty trades make Diamond Hands. */
  lemma YearSummary(deposit: string, price: string)
    requires ParseAmount(deposit) == Some(1000.0)
    ensures Summarize(Aggregate(Year(deposit, price)), 1200.0) ==
            TradingYear(1000.0, 0.0, 200.0, 20.0, 8, TopStock("AAPL"), TopStock("AAPL"), DiamondHands)
  {
    YearAggregate(deposit, price);
    YearRecord(Aggregate(Year(deposit, price)));
  }

  /** Letters, with single spaces only inside, make a bare field. */
  lemma Word(f: string)
    requires forall k | 0 <= k < |f| :: 'A' <= f[k] <= 'Z' || 'a' <= f[k] <= 'z' || (f[k] == ' ' && 0 < k < |f| - 1)
    ensures BareField(f)
  {
  }

  /** The names and codes of the worked year are bare fields. */
  lemma BareWords()
    ensures BareRow(Header)
    ensures BareField("ACH") && BareField("") && BareField("Buy") && BareField("Sell") && BareField("AAPL")
  {
    Word("Trans Code");
    Word("Amount");
    Word("Instrument");
    Word("ACH");
    Word("Buy");
    Word("Sell");
    Word("AAPL");
  }

  /** The rows of the year can be written with bare fields whenever the deposit and the
      price can. */
  lemma YearBare(deposit: string, price: string)
    requires BareField(deposit) && BareField(price)
    ensures forall k | 0 <= k < |Year(deposit, price)| :: BareRow(Year(deposit, price)[k])
  {
    BareWords();
    var buy, sell: Row := ["Buy", price, "AAPL"], ["Sell", price, "AAPL"];
    assert BareRow(buy) && BareRow(sell) && BareRow(["ACH", deposit, ""]);
    var rows := Year(deposit, price);
    var trades := Trades(price);
    assert forall k | 0 <= k < 5 :: trades[k] == Repeat(buy, 5)[k];
    assert forall k | 5 <= k < 8 :: trades[k] == Repeat(sell, 3)[k - 5];
    assert forall k | 2 <= k < |rows| :: rows[k] == trades[k - 2];
  }

  /** The same year from the text of the export: parsing the file that holds the
      year's rows, one per line, gives the summary of `YearSummary`. */
  lemma YearText(deposit: string, price: string)
    requires ParseAmount(deposit) == Some(1000.0)
    requires BareField(deposit) && BareField(price)
    ensures ParseCsv(Encode(BareLines(Year(deposit, price))), 1200.0) ==
            Success(TradingYear(1000.0, 0.0, 200.0, 20.0, 8, TopStock("AAPL"), TopStock("AAPL"), DiamondHands))
  {
    YearBare(deposit, price);
    BareTable(Year(deposit, price));
    YearSummary(deposit, price);
  }
}
