/**
 * The derived fields of the year's summary: the most traded instrument (the
 * head of the frequency table sorted by descending count), the net profit and
 * its percentage of the deposits rounded to two decimals, and the trader
 * archetype chosen from the number of trades.
 */
module Summary {
  import opened Aggregator

  // ---------------------------------------------------------------------------
  // Most traded instrument
  // ---------------------------------------------------------------------------

  /** Places `e` in front of the first entry whose count is not larger than its own,
      so that an entry keeps its place ahead of later entries with the same count. */
  function Insert(e: Entry, sorted: seq<Entry>): (r: seq<Entry>)
    ensures |r| == |sorted| + 1
    ensures multiset(r) == multiset(sorted) + multiset{e}
  {
    if sorted == [] || sorted[0].count <= e.count then [e] + sorted
    else
      assert sorted == [sorted[0]] + sorted[1..];
      [sorted[0]] + Insert(e, sorted[1..])
  }

  /** `Object.entries(stockCounts).sort((a, b) => b[1] - a[1])`: a stable sort by
      descending count. */
  function SortByCount(counts: seq<Entry>): (r: seq<Entry>)
    ensures |r| == |counts|
    ensures multiset(r) == multiset(counts)
  {
    if counts == [] then []
    else
      assert counts == [counts[0]] + counts[1..];
      Insert(counts[0], SortByCount(counts[1..]))
  }

  predicate Descending(s: seq<Entry>) {
    forall i, j | 0 <= i < j < |s| :: s[i].count >= s[j].count
  }

  /** Inserting an entry no larger than a bound into a table bounded by it keeps the
      table bounded. */
  lemma {:induction false} InsertBounded(e: Entry, s: seq<Entry>, b: int)
    requires e.count <= b
    requires forall k | 0 <= k < |s| :: s[k].count <= b
    ensures forall k | 0 <= k < |Insert(e, s)| :: Insert(e, s)[k].count <= b
    decreases |s|
  {
    if s != [] && s[0].count > e.count {
      InsertBounded(e, s[1..], b);
      assert Insert(e, s) == [s[0]] + Insert(e, s[1..]);
    }
  }

  lemma {:induction false} InsertDescending(e: Entry, sorted: seq<Entry>)
    requires Descending(sorted)
    ensures Descending(Insert(e, sorted))
    decreases |sorted|
  {
    if sorted != [] && sorted[0].count > e.count {
      var tail := sorted[1..];
      var rest := Insert(e, tail);
      InsertDescending(e, tail);
      InsertBounded(e, tail, sorted[0].count);
      var r := Insert(e, sorted);
      assert r == [sorted[0]] + rest;
      forall i, j | 0 <= i < j < |r|
        ensures r[i].count >= r[j].count
      {
        if i > 0 {
          assert r[i] == rest[i - 1];
        }
        assert r[j] == rest[j - 1];
      }
    }
  }

  /** The sort leaves the table in descending order of count. */
  lemma {:induction false} SortDescending(counts: seq<Entry>)
    ensures Descending(SortByCount(counts))
    decreases |counts|
  {
    if counts != [] {
      SortDescending(counts[1..]);
      InsertDescending(counts[0], SortByCount(counts[1..]));
    }
  }

  /** The position of the first entry with the largest count. */
  function FirstMax(counts: seq<Entry>): (i: nat)
    requires counts != []
    ensures i < |counts|
    ensures forall k | 0 <= k < |counts| :: counts[k].count <= counts[i].count
    ensures forall k | 0 <= k < i :: counts[k].count < counts[i].count
    decreases |counts|
  {
    if |counts| == 1 then 0
    else
      var tail := counts[1..];
      var j := 1 + FirstMax(tail);
      assert forall k | 1 <= k < |counts| :: counts[k] == tail[k - 1];
      if counts[j].count <= counts[0].count then 0 else j
  }

  /** The head of the sorted table is the first entry with the largest count: a tie
      goes to the instrument that was traded first. */
  lemma {:induction false} SortHead(counts: seq<Entry>)
    requires counts != []
    ensures SortByCount(counts)[0] == counts[FirstMax(counts)]
    decreases |counts|
  {
    if |counts| > 1 {
      var tail := counts[1..];
      SortHead(tail);
      assert counts[1 + FirstMax(tail)] == tail[FirstMax(tail)];
    }
  }

  /** `sortedStocks.length > 0 ? sortedStocks[0][0] : 'N/A'`. */
  function TopTicker(counts: seq<Entry>): string {
    var sorted := SortByCount(counts);
    if |sorted| > 0 then sorted[0].ticker else "N/A"
  }

  /** With no instrument counted the top ticker is `"N/A"`; otherwise it is an
      instrument traded at least as often as every other one, and strictly more
      often than every instrument counted before it. */
  lemma TopTickerSpec(counts: seq<Entry>)
    ensures counts == [] ==> TopTicker(counts) == "N/A"
    ensures counts != [] ==>
              exists i | 0 <= i < |counts| ::
                TopTicker(counts) == counts[i].ticker &&
                (forall k | 0 <= k < |counts| :: counts[k].count <= counts[i].count) &&
                (forall k | 0 <= k < i :: counts[k].count < counts[i].count)
  {
    if counts != [] {
      SortHead(counts);
      var i := FirstMax(counts);
      assert TopTicker(counts) == counts[i].ticker;
    }
  }

  /** An equal count does not displace the instrument counted first. */
  lemma TopTickerTieExample()
    ensures TopTicker([Entry("AAPL", 2), Entry("TSLA", 3), Entry("NVDA", 3)]) == "TSLA"
  {
    var counts := [Entry("AAPL", 2), Entry("TSLA", 3), Entry("NVDA", 3)];
    SortHead(counts);
    assert FirstMax(counts[2..]) == 0;
    assert FirstMax(counts[1..]) == 0;
  }

  /** An instrument literally named `N/A` is indistinguishable from no instrument. */
  lemma TopTickerNamedNA()
    ensures TopTicker([Entry("N/A", 1)]) == TopTicker([])
  {
  }

  // ---------------------------------------------------------------------------
  // Profit
  // ---------------------------------------------------------------------------

  /** `currentPortfolioValue - (totalDeposits - totalWithdrawals)`. */
  function NetPnL(currentValue: real, deposits: real, withdrawals: real): real {
    currentValue - (deposits - withdrawals)
  }

  /** The profit is what the account is worth beyond the money put in net of the
      money taken out. */
  lemma NetPnLBalance(currentValue: real, deposits: real, withdrawals: real)
    ensures deposits - withdrawals + NetPnL(currentValue, deposits, withdrawals) == currentValue
    ensures NetPnL(currentValue, deposits, withdrawals) > 0.0 <==> currentValue > deposits - withdrawals
  {
  }

  /** `totalDeposits > 0 ? (netPnL / totalDeposits) * 100 : 0`. */
  function PnlPercentage(netPnL: real, deposits: real): real {
    if deposits > 0.0 then (netPnL / deposits) * 100.0 else 0.0
  }

  /** The percentage is the profit per hundred deposited, and `0` with nothing deposited. */
  lemma PnlPercentageSpec(netPnL: real, deposits: real)
    ensures deposits > 0.0 ==> PnlPercentage(netPnL, deposits) * deposits == netPnL * 100.0
    ensures deposits <= 0.0 ==> PnlPercentage(netPnL, deposits) == 0.0
    ensures deposits > 0.0 ==> (PnlPercentage(netPnL, deposits) > 0.0 <==> netPnL > 0.0)
  {
  }

  // ---------------------------------------------------------------------------
  // Two decimals
  // ---------------------------------------------------------------------------

  /** From `1e21` on, `toFixed` falls back to the plain decimal form of the number. */
  const FixedLimit: real := 1000000000000000000000.0

  function Abs(x: real): real {
    if x < 0.0 then -x else x
  }

  /** `parseFloat(x.toFixed(2))` on exact numbers: the magnitude is rounded to the
      nearest hundredth, a tie going up, and the sign is kept. */
  function Round2(x: real): real {
    if Abs(x) >= FixedLimit then x
    else
      var n := (Abs(x) * 100.0 + 0.5).Floor;
      if x < 0.0 then -(n as real / 100.0) else n as real / 100.0
  }

  /** The rounded value is within half a hundredth of the exact one. */
  lemma Round2Close(x: real)
    ensures Abs(Round2(x) - x) <= 0.005
  {
    if Abs(x) < FixedLimit {
      var n := (Abs(x) * 100.0 + 0.5).Floor;
      assert n as real <= Abs(x) * 100.0 + 0.5 < n as real + 1.0;
    }
  }

  function Hundredths(n: int): real {
    n as real / 100.0
  }

  /** The rounded value is a whole number of hundredths. */
  lemma Round2Hundredths(x: real)
    requires Abs(x) < FixedLimit
    ensures exists n: int :: Round2(x) == Hundredths(n)
  {
    var n := (Abs(x) * 100.0 + 0.5).Floor;
    if x < 0.0 {
      assert Round2(x) == Hundredths(-n);
    } else {
      assert Round2(x) == Hundredths(n);
    }
  }

  /** Rounding a rounded value changes nothing. */
  lemma Round2Idempotent(x: real)
    ensures Round2(Round2(x)) == Round2(x)
  {
    if Abs(x) < FixedLimit {
      var n := (Abs(x) * 100.0 + 0.5).Floor;
      assert n >= 0;
      var r := Round2(x);
      assert Abs(r) == n as real / 100.0;
      assert Abs(r) * 100.0 + 0.5 == n as real + 0.5;
      assert (Abs(r) * 100.0 + 0.5).Floor == n;
    }
  }

  /** Rounding is symmetric about zero. */
  lemma Round2Odd(x: real)
    ensures Round2(-x) == -Round2(x)
  {
    assert Abs(-x) == Abs(x);
    if x == 0.0 {
      assert Round2(x) == 0.0;
    }
  }

  lemma Round2Example()
    ensures Round2(12.345) == 12.35
    ensures Round2(-0.004) == 0.0
  {
    assert (12.345 * 100.0 + 0.5).Floor == 1235;
    assert (0.004 * 100.0 + 0.5).Floor == 0;
  }

  // ---------------------------------------------------------------------------
  // Archetype
  // ---------------------------------------------------------------------------

  datatype Archetype = DiamondHands | DayTrader | FOMOBuyer | ValueInvestor

  /** The label the summary carries. */
  function Label(a: Archetype): string {
    match a
    case DiamondHands => "Diamond Hands"
    case DayTrader => "Day Trader"
    case FOMOBuyer => "FOMO Buyer"
    case ValueInvestor => "Value Investor"
  }

  /** Each archetype has its own label, so the enumeration loses nothing of the
      string union the record's `archetype` field holds. */
  lemma LabelInjective(a: Archetype, b: Archetype)
    ensures Label(a) == Label(b) ==> a == b
  {
  }

  /** The first test that holds decides: more than 1000 trades, then fewer than 20,
      then more than 200; `Value Investor` otherwise. */
  function ArchetypeOf(trades: nat): Archetype {
    if trades > 1000 then DayTrader
    else if trades < 20 then DiamondHands
    else if trades > 200 then FOMOBuyer
    else ValueInvestor
  }

  /** The four archetypes split the trade counts into four consecutive ranges. */
  lemma ArchetypeRanges(trades: nat)
    ensures ArchetypeOf(trades) == DiamondHands <==> trades < 20
    ensures ArchetypeOf(trades) == ValueInvestor <==> 20 <= trades <= 200
    ensures ArchetypeOf(trades) == FOMOBuyer <==> 200 < trades <= 1000
    ensures ArchetypeOf(trades) == DayTrader <==> 1000 < trades
  {
  }

  /** The edges of the ranges. */
  lemma ArchetypeBoundaries()
    ensures ArchetypeOf(19) == DiamondHands && ArchetypeOf(20) == ValueInvestor
    ensures ArchetypeOf(200) == ValueInvestor && ArchetypeOf(201) == FOMOBuyer
    ensures ArchetypeOf(1000) == FOMOBuyer && ArchetypeOf(1001) == DayTrader
  {
  }

  /** Archetypes ordered by how actively they trade. */
  function Activity(a: Archetype): nat {
    match a
    case DiamondHands => 0
    case ValueInvestor => 1
    case FOMOBuyer => 2
    case DayTrader => 3
  }

  /** More trades never give a less active archetype. */
  lemma ArchetypeMonotone(fewer: nat, more: nat)
    requires fewer <= more
    ensures Activity(ArchetypeOf(fewer)) <= Activity(ArchetypeOf(more))
  {
  }

  // ---------------------------------------------------------------------------
  // The summary record
  // ---------------------------------------------------------------------------

  datatype Stock = Stock(symbol: string, name: string, gain: real, value: real, logo: string)

  datatype TradingYear = TradingYear(
    totalDeposits: real,
    totalWithdrawals: real,
    netPnL: real,
    pnlPercentage: real,
    totalTrades: nat,
    topStock: Stock,
    worstStock: Stock,
    archetype: Archetype)

  /** The placeholder record for the top instrument: only its symbol is known. */
  function TopStock(ticker: string): Stock {
    Stock(ticker, ticker, 0.0, 0.0, "#00C805")
  }

  /** The record built from the totals of the pass and the current value of the
      account: the totals as they are, the profit that balances the account, the
      percentage within half a hundredth of the profit per hundred deposited (`0`
      with nothing deposited), the top instrument as both the best and the worst
      stock, and the archetype of the trade count. */
  function Summarize(t: Totals, currentValue: real): (y: TradingYear)
    ensures y.totalDeposits == t.deposits && y.totalWithdrawals == t.withdrawals
    ensures y.totalTrades == t.trades
    ensures t.deposits - t.withdrawals + y.netPnL == currentValue
    ensures t.deposits <= 0.0 ==> y.pnlPercentage == 0.0
    ensures t.deposits > 0.0 ==> Abs(y.pnlPercentage - y.netPnL / t.deposits * 100.0) <= 0.005
    ensures y.topStock == TopStock(TopTicker(t.counts)) && y.worstStock == y.topStock
    ensures y.topStock.symbol == y.topStock.name && y.topStock.gain == 0.0
    ensures y.archetype == ArchetypeOf(t.trades)
  {
    var netPnL := NetPnL(currentValue, t.deposits, t.withdrawals);
    Round2Close(PnlPercentage(netPnL, t.deposits));
    TradingYear(t.deposits, t.withdrawals, netPnL,
                Round2(PnlPercentage(netPnL, t.deposits)), t.trades,
                TopStock(TopTicker(t.counts)), TopStock(TopTicker(t.counts)),
                ArchetypeOf(t.trades))
  }
}
