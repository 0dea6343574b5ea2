/**
 * The aggregation pass of `parseCSV`: the header row fixes the column of each
 * field the pass reads, then every later row that is at least as wide as the
 * header is classified by its transaction code and folded into the running
 * totals -- money in, money out, the number of trades and how often each
 * instrument was traded.
 *
 * `Fold` is the pass written as a function; `AggregateRows` is the loop the
 * source runs, proved to compute it.
 */
module Aggregator {
  import opened Wrappers
  import opened Tokenizer
  import opened Amount

  // ---------------------------------------------------------------------------
  // Header columns
  // ---------------------------------------------------------------------------

  /** `headers.findIndex(p)`: the first position whose name satisfies `p`, or `-1`. */
  function FindIndex(headers: Row, p: string -> bool): (r: int)
    ensures -1 <= r < |headers|
    ensures r == -1 <==> forall k | 0 <= k < |headers| :: !p(headers[k])
    ensures r >= 0 ==> p(headers[r]) && forall k | 0 <= k < r :: !p(headers[k])
  {
    if headers == [] then -1
    else if p(headers[0]) then 0
    else
      var i := FindIndex(headers[1..], p);
      assert forall k | 1 <= k < |headers| :: headers[1..][k - 1] == headers[k];
      if i == -1 then -1 else i + 1
  }

  /** `headers.indexOf(name)`. */
  function IndexOf(headers: Row, name: string): (r: int)
    ensures -1 <= r < |headers|
    ensures r == -1 <==> name !in headers
    ensures r >= 0 ==> headers[r] == name && name !in headers[..r]
  {
    FindIndex(headers, h => h == name)
  }

  /** The amount column goes by either name; whichever of the two comes first wins. */
  predicate IsAmountHeader(h: string) {
    h == "Amount" || h == "Total Cost"
  }

  /** Where the pass finds each field it reads; `-1` for a column the header lacks. */
  datatype Columns = Columns(transCode: int, amount: int, instrument: int)

  predicate Within(c: Columns, width: nat) {
    -1 <= c.transCode < width && -1 <= c.amount < width && -1 <= c.instrument < width
  }

  function ResolveColumns(headers: Row): (c: Columns)
    ensures Within(c, |headers|)
  {
    Columns(IndexOf(headers, "Trans Code"), FindIndex(headers, IsAmountHeader), IndexOf(headers, "Instrument"))
  }

  /** `idx > -1 ? cols[idx] : absent`. */
  function FieldOr(cols: Row, idx: int, absent: string): string
    requires idx < |cols|
  {
    if idx > -1 then cols[idx] else absent
  }

  // ---------------------------------------------------------------------------
  // Transaction codes
  // ---------------------------------------------------------------------------

  /** Money moved into or out of the account. */
  const CashFlowCodes: seq<string> := ["ACH", "RTP", "XENT", "GDBP"]

  /** Buys, sells, the four option legs and option expiry. */
  const TradeCodes: seq<string> := ["Buy", "Sell", "BTO", "STC", "STO", "BTC", "OEXP"]

  /** The code of an option expiring: a trade, but not one that picks an instrument. */
  const Expiry := "OEXP"

  predicate IsCashFlow(code: string) {
    code in CashFlowCodes
  }

  predicate IsTrade(code: string) {
    code in TradeCodes
  }

  /** No code is both: a row touches the money totals or the trade totals, never both. */
  lemma CodesDisjoint(code: string)
    ensures !(IsCashFlow(code) && IsTrade(code))
  {
  }

  // ---------------------------------------------------------------------------
  // Running totals
  // ---------------------------------------------------------------------------

  /** One key of the `stockCounts` record, in the order keys were first added. */
  datatype Entry = Entry(ticker: string, count: nat)

  /** The four accumulators of the pass. */
  datatype Totals = Totals(deposits: real, withdrawals: real, trades: nat, counts: seq<Entry>)

  const Zero := Totals(0.0, 0.0, 0, [])

  function Tickers(counts: seq<Entry>): seq<string> {
    seq(|counts|, k requires 0 <= k < |counts| => counts[k].ticker)
  }

  /** `stockCounts[t] || 0`. */
  function Lookup(counts: seq<Entry>, t: string): nat {
    if counts == [] then 0
    else if counts[0].ticker == t then counts[0].count
    else Lookup(counts[1..], t)
  }

  /** `stockCounts[t] = (stockCounts[t] || 0) + 1`. */
  function Bump(counts: seq<Entry>, t: string): seq<Entry> {
    if counts == [] then [Entry(t, 1)]
    else if counts[0].ticker == t then [Entry(t, counts[0].count + 1)] + counts[1..]
    else [counts[0]] + Bump(counts[1..], t)
  }

  /** Bumping counts `t` once more and nothing else; an existing key keeps its place
      and a new key goes last. */
  lemma {:induction false} BumpSpec(counts: seq<Entry>, t: string)
    ensures Tickers(Bump(counts, t)) == if t in Tickers(counts) then Tickers(counts) else Tickers(counts) + [t]
    ensures forall u :: Lookup(Bump(counts, t), u) == Lookup(counts, u) + (if u == t then 1 else 0)
    decreases |counts|
  {
    if counts == [] {
    } else if counts[0].ticker == t {
      assert Tickers(counts)[0] == t;
    } else {
      BumpSpec(counts[1..], t);
      assert Tickers(counts) == [counts[0].ticker] + Tickers(counts[1..]);
      assert Tickers(Bump(counts, t)) == [counts[0].ticker] + Tickers(Bump(counts[1..], t));
    }
  }

  /** The cash-flow branch: a positive amount is a deposit, a negative one a withdrawal
      of its magnitude; zero and NaN change nothing. */
  function Credit(t: Totals, amount: Option<real>): (r: Totals)
    ensures r.trades == t.trades && r.counts == t.counts
    ensures r.deposits >= t.deposits && r.withdrawals >= t.withdrawals
    ensures amount.Some? ==> r.deposits - r.withdrawals == t.deposits - t.withdrawals + amount.value
    ensures amount.None? ==> r == t
  {
    match amount
    case None => t
    case Some(a) =>
      if a > 0.0 then t.(deposits := t.deposits + a)
      else if a < 0.0 then t.(withdrawals := t.withdrawals - a)
      else t
  }

  /** The trade branch: one more trade, and one more for its instrument unless the
      instrument is blank or the trade is an expiry. */
  function CountTrade(t: Totals, code: string, instrument: string): (r: Totals)
    ensures r.deposits == t.deposits && r.withdrawals == t.withdrawals
    ensures r.trades == t.trades + (if IsTrade(code) then 1 else 0)
    ensures !IsTrade(code) || instrument == "" || code == Expiry ==> r.counts == t.counts
  {
    if IsTrade(code) then
      Totals(t.deposits, t.withdrawals, t.trades + 1,
             if instrument != "" && code != Expiry then Bump(t.counts, instrument) else t.counts)
    else t
  }

  /** One data row, once its code, amount and instrument are read. */
  function Record(t: Totals, code: string, amount: Option<real>, instrument: string): Totals {
    CountTrade(if IsCashFlow(code) then Credit(t, amount) else t, code, instrument)
  }

  /** The columns the pass reads all exist in `row`. */
  predicate Reads(c: Columns, row: Row) {
    c.transCode < |row| && c.amount < |row| && c.instrument < |row|
  }

  /** The fields of a data row: a column the header lacks reads as `""`, or as `"0"`
      for the amount. */
  function CodeOf(c: Columns, row: Row): string
    requires Reads(c, row)
  {
    FieldOr(row, c.transCode, "")
  }

  function AmountOf(c: Columns, row: Row): Option<real>
    requires Reads(c, row)
  {
    ParseAmount(FieldOr(row, c.amount, "0"))
  }

  function InstrumentOf(c: Columns, row: Row): string
    requires Reads(c, row)
  {
    FieldOr(row, c.instrument, "")
  }

  /** The body of the aggregation loop for one data row: a row narrower than the
      header is skipped. */
  function Apply(t: Totals, c: Columns, width: nat, row: Row): Totals
    requires Within(c, width)
  {
    if |row| < width then t
    else Record(t, CodeOf(c, row), AmountOf(c, row), InstrumentOf(c, row))
  }

  /** The totals after the data rows `rows`, starting from `t`. */
  function Fold(t: Totals, c: Columns, width: nat, rows: seq<Row>): Totals
    requires Within(c, width)
    decreases |rows|
  {
    if rows == [] then t else Fold(Apply(t, c, width, rows[0]), c, width, rows[1..])
  }

  /** The totals of a whole table: its first row is the header. */
  function Aggregate(rows: seq<Row>): Totals
    requires rows != []
  {
    Fold(Zero, ResolveColumns(rows[0]), |rows[0]|, rows[1..])
  }

  /** The classification of one data row (the two `if`s of the loop body), updating
      the four accumulators. */
  method RecordRow(totalDeposits: real, totalWithdrawals: real, totalTrades: nat, stockCounts: seq<Entry>,
                   transCode: string, amount: Option<real>, instrument: string)
    returns (deposits: real, withdrawals: real, trades: nat, counts: seq<Entry>)
    ensures Totals(deposits, withdrawals, trades, counts) ==
            Record(Totals(totalDeposits, totalWithdrawals, totalTrades, stockCounts), transCode, amount, instrument)
  {
    deposits, withdrawals, trades, counts := totalDeposits, totalWithdrawals, totalTrades, stockCounts;
    if transCode in CashFlowCodes {
      if amount.Some? && amount.value > 0.0 {
        deposits := deposits + amount.value;
      } else if amount.Some? && amount.value < 0.0 {
        withdrawals := withdrawals + -amount.value;
      }
    }
    ghost var credited := Totals(deposits, withdrawals, trades, counts);
    assert credited == if IsCashFlow(transCode) then Credit(Totals(totalDeposits, totalWithdrawals, totalTrades, stockCounts), amount)
                       else Totals(totalDeposits, totalWithdrawals, totalTrades, stockCounts);
    if transCode in TradeCodes {
      trades := trades + 1;
      if instrument != "" && transCode != Expiry {
        counts := Bump(counts, instrument);
      }
    }
  }

  /** The source's loop over the data rows, with its four accumulators. */
  method AggregateRows(rows: seq<Row>)
    returns (totalDeposits: real, totalWithdrawals: real, totalTrades: nat, stockCounts: seq<Entry>)
    requires rows != []
    ensures Totals(totalDeposits, totalWithdrawals, totalTrades, stockCounts) == Aggregate(rows)
  {
    var headers := rows[0];
    var c := ResolveColumns(headers);
    totalDeposits, totalWithdrawals, totalTrades, stockCounts := 0.0, 0.0, 0, [];
    var i := 1;
    while i < |rows|
      invariant 1 <= i <= |rows|
      invariant Fold(Totals(totalDeposits, totalWithdrawals, totalTrades, stockCounts), c, |headers|, rows[i..]) ==
                Aggregate(rows)
      decreases |rows| - i
    {
      var cols := rows[i];
      assert rows[i..][1..] == rows[i + 1..];
      if |cols| < |headers| {
        i := i + 1;
        continue;
      }
      var transCode := if c.transCode > -1 then cols[c.transCode] else "";
      var amountStr := if c.amount > -1 then cols[c.amount] else "0";
      var amount := ParseAmount(amountStr);
      var instrument := if c.instrument > -1 then cols[c.instrument] else "";
      totalDeposits, totalWithdrawals, totalTrades, stockCounts :=
        RecordRow(totalDeposits, totalWithdrawals, totalTrades, stockCounts, transCode, amount, instrument);
      i := i + 1;
    }
  }
}
