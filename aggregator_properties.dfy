/**
 * What the aggregation pass computes, stated against independent per-row
 * definitions: the trade count is the number of trade rows, each instrument's
 * count is the number of rows that pick it, the deposit and withdrawal totals
 * are the sums of the positive and negative cash-flow amounts, and rows the
 * pass skips or does not recognise leave every total alone.
 */
module AggregatorProperties {
  import opened Wrappers
  import opened Tokenizer
  import opened Aggregator
  import opened Amount
  import opened JsNumber

  // ---------------------------------------------------------------------------
  // What one row contributes
  // ---------------------------------------------------------------------------

  /** A row the pass reads: at least as wide as the header. */
  predicate Counted(c: Columns, width: nat, row: Row)
    requires Within(c, width)
  {
    |row| >= width
  }

  predicate IsTradeRow(c: Columns, width: nat, row: Row)
    requires Within(c, width)
  {
    Counted(c, width, row) && IsTrade(CodeOf(c, row))
  }

  /** A row that counts one more trade of instrument `u`. */
  predicate Picks(c: Columns, width: nat, row: Row, u: string)
    requires Within(c, width)
  {
    IsTradeRow(c, width, row) && CodeOf(c, row) != Expiry && u != "" && InstrumentOf(c, row) == u
  }

  /** A row that touches no total: too narrow, or a code in neither list. */
  predicate Ignored(c: Columns, width: nat, row: Row)
    requires Within(c, width)
  {
    !Counted(c, width, row) || (!IsCashFlow(CodeOf(c, row)) && !IsTrade(CodeOf(c, row)))
  }

  /** The cash-flow amount of a row; `0` when it is not a cash-flow row or its amount is NaN. */
  function CashAmount(c: Columns, width: nat, row: Row): real
    requires Within(c, width)
  {
    if Counted(c, width, row) && IsCashFlow(CodeOf(c, row)) then
      match AmountOf(c, row)
      case None => 0.0
      case Some(a) => a
    else 0.0
  }

  function Positive(x: real): real {
    if x > 0.0 then x else 0.0
  }

  // ---------------------------------------------------------------------------
  // The same, summed over rows
  // ---------------------------------------------------------------------------

  function TradeCount(c: Columns, width: nat, rows: seq<Row>): nat
    requires Within(c, width)
    decreases |rows|
  {
    if rows == [] then 0
    else (if IsTradeRow(c, width, rows[0]) then 1 else 0) + TradeCount(c, width, rows[1..])
  }

  function PickCount(c: Columns, width: nat, rows: seq<Row>, u: string): nat
    requires Within(c, width)
    decreases |rows|
  {
    if rows == [] then 0
    else (if Picks(c, width, rows[0], u) then 1 else 0) + PickCount(c, width, rows[1..], u)
  }

  /** Money in: the positive cash-flow amounts. */
  function Inflow(c: Columns, width: nat, rows: seq<Row>): (r: real)
    requires Within(c, width)
    ensures r >= 0.0
    decreases |rows|
  {
    if rows == [] then 0.0
    else Positive(CashAmount(c, width, rows[0])) + Inflow(c, width, rows[1..])
  }

  /** Money out: the magnitudes of the negative cash-flow amounts. */
  function Outflow(c: Columns, width: nat, rows: seq<Row>): (r: real)
    requires Within(c, width)
    ensures r >= 0.0
    decreases |rows|
  {
    if rows == [] then 0.0
    else Positive(-CashAmount(c, width, rows[0])) + Outflow(c, width, rows[1..])
  }

  /** The signed sum of every cash-flow amount. */
  function NetFlow(c: Columns, width: nat, rows: seq<Row>): real
    requires Within(c, width)
    decreases |rows|
  {
    if rows == [] then 0.0 else CashAmount(c, width, rows[0]) + NetFlow(c, width, rows[1..])
  }

  // ---------------------------------------------------------------------------
  // One step of the pass
  // ---------------------------------------------------------------------------

  lemma ApplyMoney(t: Totals, c: Columns, width: nat, row: Row)
    requires Within(c, width)
    ensures Apply(t, c, width, row).deposits == t.deposits + Positive(CashAmount(c, width, row))
    ensures Apply(t, c, width, row).withdrawals == t.withdrawals + Positive(-CashAmount(c, width, row))
  {
  }

  lemma ApplyTrades(t: Totals, c: Columns, width: nat, row: Row)
    requires Within(c, width)
    ensures Apply(t, c, width, row).trades == t.trades + (if IsTradeRow(c, width, row) then 1 else 0)
  {
  }

  lemma ApplyCounts(t: Totals, c: Columns, width: nat, row: Row, u: string)
    requires Within(c, width)
    ensures Lookup(Apply(t, c, width, row).counts, u) == Lookup(t.counts, u) + (if Picks(c, width, row, u) then 1 else 0)
  {
    if Counted(c, width, row) && IsTrade(CodeOf(c, row)) && InstrumentOf(c, row) != "" && CodeOf(c, row) != Expiry {
      CodesDisjoint(CodeOf(c, row));
      BumpSpec(t.counts, InstrumentOf(c, row));
    }
  }

  lemma ApplyIgnored(t: Totals, c: Columns, width: nat, row: Row)
    requires Within(c, width) && Ignored(c, width, row)
    ensures Apply(t, c, width, row) == t
  {
  }

  // ---------------------------------------------------------------------------
  // The whole pass
  // ---------------------------------------------------------------------------

  /** The trade count is the number of trade rows the pass reads, expiries included. */
  lemma {:induction false} FoldTrades(t: Totals, c: Columns, width: nat, rows: seq<Row>)
    requires Within(c, width)
    ensures Fold(t, c, width, rows).trades == t.trades + TradeCount(c, width, rows)
    decreases |rows|
  {
    if rows != [] {
      ApplyTrades(t, c, width, rows[0]);
      FoldTrades(Apply(t, c, width, rows[0]), c, width, rows[1..]);
    }
  }

  /** Deposits add up the positive cash-flow amounts and withdrawals the magnitudes of
      the negative ones; no other row touches either. */
  lemma {:induction false} FoldMoney(t: Totals, c: Columns, width: nat, rows: seq<Row>)
    requires Within(c, width)
    ensures Fold(t, c, width, rows).deposits == t.deposits + Inflow(c, width, rows)
    ensures Fold(t, c, width, rows).withdrawals == t.withdrawals + Outflow(c, width, rows)
    decreases |rows|
  {
    if rows != [] {
      ApplyMoney(t, c, width, rows[0]);
      FoldMoney(Apply(t, c, width, rows[0]), c, width, rows[1..]);
    }
  }

  /** Each instrument's count is the number of non-expiry trade rows that name it. */
  lemma {:induction false} FoldCounts(t: Totals, c: Columns, width: nat, rows: seq<Row>, u: string)
    requires Within(c, width)
    ensures Lookup(Fold(t, c, width, rows).counts, u) == Lookup(t.counts, u) + PickCount(c, width, rows, u)
    decreases |rows|
  {
    if rows != [] {
      ApplyCounts(t, c, width, rows[0], u);
      FoldCounts(Apply(t, c, width, rows[0]), c, width, rows[1..], u);
    }
  }

  lemma {:induction false} InOutNet(c: Columns, width: nat, rows: seq<Row>)
    requires Within(c, width)
    ensures Inflow(c, width, rows) - Outflow(c, width, rows) == NetFlow(c, width, rows)
    decreases |rows|
  {
    if rows != [] {
      InOutNet(c, width, rows[1..]);
    }
  }

  /** The pass reads the rows in order: splitting them anywhere changes nothing. */
  lemma {:induction false} FoldAppend(t: Totals, c: Columns, width: nat, a: seq<Row>, b: seq<Row>)
    requires Within(c, width)
    ensures Fold(t, c, width, a + b) == Fold(Fold(t, c, width, a), c, width, b)
    decreases |a|
  {
    if a == [] {
      assert a + b == b;
    } else {
      assert (a + b)[0] == a[0] && (a + b)[1..] == a[1..] + b;
      FoldAppend(Apply(t, c, width, a[0]), c, width, a[1..], b);
    }
  }

  /** A row that is too narrow, or whose code is in neither list, might as well not be there. */
  lemma FoldIgnored(t: Totals, c: Columns, width: nat, a: seq<Row>, row: Row, b: seq<Row>)
    requires Within(c, width) && Ignored(c, width, row)
    ensures Fold(t, c, width, a + [row] + b) == Fold(t, c, width, a + b)
  {
    FoldAppend(t, c, width, a, [row] + b);
    assert a + [row] + b == a + ([row] + b);
    ApplyIgnored(Fold(t, c, width, a), c, width, row);
    assert ([row] + b)[1..] == b;
    FoldAppend(t, c, width, a, b);
  }

  // ---------------------------------------------------------------------------
  // The keys of the frequency record
  // ---------------------------------------------------------------------------

  predicate Distinct(s: seq<string>) {
    forall i, j | 0 <= i < j < |s| :: s[i] != s[j]
  }

  /** The shape the record keeps: each key once, each count at least one. */
  predicate GoodCounts(counts: seq<Entry>) {
    Distinct(Tickers(counts)) && forall k | 0 <= k < |counts| :: counts[k].count >= 1
  }

  lemma GoodTail(counts: seq<Entry>)
    requires counts != [] && GoodCounts(counts)
    ensures GoodCounts(counts[1..])
    ensures Tickers(counts) == [counts[0].ticker] + Tickers(counts[1..])
  {
    assert forall k | 0 <= k < |counts| - 1 :: counts[1..][k] == counts[k + 1];
    assert Tickers(counts[1..]) == Tickers(counts)[1..];
  }

  /** In a well-kept record an instrument has a count exactly when it is a key. */
  lemma {:induction false} LookupKey(counts: seq<Entry>, u: string)
    requires GoodCounts(counts)
    ensures Lookup(counts, u) > 0 <==> u in Tickers(counts)
    decreases |counts|
  {
    if counts != [] {
      assert Tickers(counts) == [counts[0].ticker] + Tickers(counts[1..]);
      GoodTail(counts);
      LookupKey(counts[1..], u);
    }
  }

  lemma {:induction false} BumpKeepsGood(counts: seq<Entry>, t: string)
    requires GoodCounts(counts)
    ensures GoodCounts(Bump(counts, t))
    decreases |counts|
  {
    BumpSpec(counts, t);
    if counts != [] && counts[0].ticker != t {
      GoodTail(counts);
      BumpKeepsGood(counts[1..], t);
      var r := Bump(counts, t);
      assert r == [counts[0]] + Bump(counts[1..], t);
      assert forall k | 1 <= k < |r| :: r[k] == Bump(counts[1..], t)[k - 1];
    }
  }

  lemma ApplyKeepsGood(t: Totals, c: Columns, width: nat, row: Row)
    requires Within(c, width) && GoodCounts(t.counts)
    ensures GoodCounts(Apply(t, c, width, row).counts)
  {
    if Counted(c, width, row) && IsTrade(CodeOf(c, row)) && InstrumentOf(c, row) != "" && CodeOf(c, row) != Expiry {
      CodesDisjoint(CodeOf(c, row));
      BumpKeepsGood(t.counts, InstrumentOf(c, row));
    }
  }

  lemma {:induction false} FoldKeepsGood(t: Totals, c: Columns, width: nat, rows: seq<Row>)
    requires Within(c, width) && GoodCounts(t.counts)
    ensures GoodCounts(Fold(t, c, width, rows).counts)
    decreases |rows|
  {
    if rows != [] {
      ApplyKeepsGood(t, c, width, rows[0]);
      FoldKeepsGood(Apply(t, c, width, rows[0]), c, width, rows[1..]);
    }
  }

  /** The keys are distinct, so each entry's count is what a lookup of its key finds. */
  lemma {:induction false} LookupAt(counts: seq<Entry>, i: nat)
    requires Distinct(Tickers(counts)) && i < |counts|
    ensures Lookup(counts, counts[i].ticker) == counts[i].count
    decreases i
  {
    if i > 0 {
      assert Tickers(counts)[0] != Tickers(counts)[i];
      assert Tickers(counts[1..]) == Tickers(counts)[1..];
      assert counts[1..][i - 1] == counts[i];
      LookupAt(counts[1..], i - 1);
    }
  }

  /** An instrument that is not a key has no count. */
  lemma {:induction false} LookupAbsent(counts: seq<Entry>, u: string)
    requires u !in Tickers(counts)
    ensures Lookup(counts, u) == 0
    decreases |counts|
  {
    if counts != [] {
      assert Tickers(counts)[0] == counts[0].ticker;
      assert Tickers(counts[1..]) == Tickers(counts)[1..];
      LookupAbsent(counts[1..], u);
    }
  }

  // ---------------------------------------------------------------------------
  // The order of the keys
  // ---------------------------------------------------------------------------

  /** The position of the first data row that picks `u`; `|rows|` when none does. */
  function FirstPick(c: Columns, width: nat, rows: seq<Row>, u: string): (n: nat)
    requires Within(c, width)
    ensures n <= |rows|
    decreases |rows|
  {
    if rows == [] then 0
    else if Picks(c, width, rows[0], u) then 0
    else 1 + FirstPick(c, width, rows[1..], u)
  }

  /** The first pick is a row that picks `u`, no earlier row does, and there is one
      exactly when `u` is picked at all. */
  lemma {:induction false} FirstPickSpec(c: Columns, width: nat, rows: seq<Row>, u: string)
    requires Within(c, width)
    ensures FirstPick(c, width, rows, u) < |rows| ==> Picks(c, width, rows[FirstPick(c, width, rows, u)], u)
    ensures forall k | 0 <= k < FirstPick(c, width, rows, u) :: !Picks(c, width, rows[k], u)
    ensures FirstPick(c, width, rows, u) < |rows| <==> PickCount(c, width, rows, u) > 0
    decreases |rows|
  {
    if rows != [] && !Picks(c, width, rows[0], u) {
      FirstPickSpec(c, width, rows[1..], u);
      assert forall k | 1 <= k < |rows| :: rows[1..][k - 1] == rows[k];
    }
  }

  lemma {:induction false} FirstPickAppend(c: Columns, width: nat, rows: seq<Row>, last: Row, u: string)
    requires Within(c, width)
    ensures FirstPick(c, width, rows + [last], u) ==
            if FirstPick(c, width, rows, u) < |rows| then FirstPick(c, width, rows, u)
            else if Picks(c, width, last, u) then |rows| else |rows| + 1
    decreases |rows|
  {
    if rows == [] {
      assert rows + [last] == [last];
    } else {
      assert (rows + [last])[0] == rows[0] && (rows + [last])[1..] == rows[1..] + [last];
      FirstPickAppend(c, width, rows[1..], last, u);
    }
  }

  /** A row adds its instrument as the last key when it picks one that is new, and
      leaves the keys alone otherwise. */
  lemma ApplyTickers(t: Totals, c: Columns, width: nat, row: Row)
    requires Within(c, width)
    ensures forall u | Picks(c, width, row, u) ::
              Tickers(Apply(t, c, width, row).counts) ==
              if u in Tickers(t.counts) then Tickers(t.counts) else Tickers(t.counts) + [u]
    ensures (forall u :: !Picks(c, width, row, u)) ==> Apply(t, c, width, row).counts == t.counts
  {
    if Counted(c, width, row) && IsTrade(CodeOf(c, row)) && InstrumentOf(c, row) != "" && CodeOf(c, row) != Expiry {
      CodesDisjoint(CodeOf(c, row));
      BumpSpec(t.counts, InstrumentOf(c, row));
      assert Picks(c, width, row, InstrumentOf(c, row));
    }
  }

  /** The keys of the record are exactly the instruments some row picks, in the order
      of their first picks. */
  lemma {:induction false} KeyOrder(c: Columns, width: nat, rows: seq<Row>)
    requires Within(c, width)
    ensures var keys := Tickers(Fold(Zero, c, width, rows).counts);
            && (forall v :: v in keys <==> FirstPick(c, width, rows, v) < |rows|)
            && (forall i, j | 0 <= i < j < |keys| ::
                  FirstPick(c, width, rows, keys[i]) < FirstPick(c, width, rows, keys[j]))
    decreases |rows|
  {
    if rows != [] {
      var n := |rows| - 1;
      var init, last := rows[..n], rows[n];
      assert rows == init + [last];
      KeyOrder(c, width, init);
      var t := Fold(Zero, c, width, init);
      FoldAppend(Zero, c, width, init, [last]);
      assert [last][1..] == [];
      assert Fold(Zero, c, width, rows) == Apply(t, c, width, last);
      forall v {
        FirstPickAppend(c, width, init, last, v);
      }
      ApplyTickers(t, c, width, last);
    }
  }

  // ---------------------------------------------------------------------------
  // A header without an amount column
  // ---------------------------------------------------------------------------

  /** A missing amount column reads as `"0"`, which is the number `0`. */
  lemma AbsentAmount(c: Columns, row: Row)
    requires Reads(c, row) && c.amount == -1
    ensures AmountOf(c, row) == Some(0.0)
  {
    assert StripCurrency("0") == "0";
    assert "0" + "" == "0";
    ParseFloatInteger("0", "");
  }

  lemma {:induction false} NoAmountColumn(c: Columns, width: nat, rows: seq<Row>)
    requires Within(c, width) && c.amount == -1
    ensures Inflow(c, width, rows) == 0.0 && Outflow(c, width, rows) == 0.0
    decreases |rows|
  {
    if rows != [] {
      if Counted(c, width, rows[0]) {
        AbsentAmount(c, rows[0]);
      }
      NoAmountColumn(c, width, rows[1..]);
    }
  }

  // ---------------------------------------------------------------------------
  // The totals of a table
  // ---------------------------------------------------------------------------

  /** The totals of a table, each stated against its own definition over the data rows:
      the trade count, the count of every instrument, the two money totals (never
      negative) and their difference, the net cash flow; the instruments that are keys
      of the frequency record are exactly those some row picks, each once. */
  lemma AggregateSpec(rows: seq<Row>)
    requires rows != []
    ensures var c, w, data := ResolveColumns(rows[0]), |rows[0]|, rows[1..];
            var r := Aggregate(rows);
            && r.trades == TradeCount(c, w, data)
            && r.deposits == Inflow(c, w, data) && r.deposits >= 0.0
            && r.withdrawals == Outflow(c, w, data) && r.withdrawals >= 0.0
            && r.deposits - r.withdrawals == NetFlow(c, w, data)
            && (forall u :: Lookup(r.counts, u) == PickCount(c, w, data, u))
            && Distinct(Tickers(r.counts))
            && (forall u :: u in Tickers(r.counts) <==> PickCount(c, w, data, u) > 0)
  {
    var c, w, data := ResolveColumns(rows[0]), |rows[0]|, rows[1..];
    FoldTrades(Zero, c, w, data);
    FoldMoney(Zero, c, w, data);
    InOutNet(c, w, data);
    FoldKeepsGood(Zero, c, w, data);
    forall u
      ensures Lookup(Aggregate(rows).counts, u) == PickCount(c, w, data, u)
      ensures u in Tickers(Aggregate(rows).counts) <==> PickCount(c, w, data, u) > 0
    {
      FoldCounts(Zero, c, w, data, u);
      LookupKey(Aggregate(rows).counts, u);
    }
  }

  /** A table with only its header row: every total is zero and no instrument is counted. */
  lemma HeaderOnly(headers: Row)
    ensures Aggregate([headers]) == Zero
  {
    assert [headers][1..] == [];
  }

  /** A header with neither an `Amount` nor a `Total Cost` column: no money moves. */
  lemma NoAmountHeader(rows: seq<Row>)
    requires rows != []
    requires forall k | 0 <= k < |rows[0]| :: !IsAmountHeader(rows[0][k])
    ensures Aggregate(rows).deposits == 0.0 && Aggregate(rows).withdrawals == 0.0
  {
    AggregateSpec(rows);
    NoAmountColumn(ResolveColumns(rows[0]), |rows[0]|, rows[1..]);
  }
}
