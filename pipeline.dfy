/**
 * The script from the spread on, as one run: the spread, the verdict on the p-value,
 * the rolling mean, the positions, and the backtest. The hedge ratio, the ADF p-value
 * and the z-score series are computed by library code outside this model and come in
 * as parameters.
 */
module Pipeline {
  import opened Wrappers
  import opened Series
  import opened SpreadBuilder
  import opened Rolling
  import opened Signals
  import opened Backtest
  import opened Cointegration

  /** What the run computes, in the order the script computes it. */
  datatype Report = Report(
    spread: seq<real>,
    verdict: Verdict,
    spreadMean: seq<Option<real>>,
    position: seq<int>,
    pnl: seq<Option<real>>,
    cumulativePnl: seq<Option<real>>,
    totalProfit: Result<Option<real>>)

  /** Lines 52, 61-64, 66-67 and 75-86 run in sequence over the aligned price columns. */
  method Run(a: seq<real>, b: seq<real>, h: real, pValue: Option<real>, z: seq<Option<real>>)
    returns (r: Report)
    requires |a| == |b| == |z|
    ensures r.spread == Spread(a, b, h) && r.verdict == Classify(pValue)
    ensures r.spreadMean == RollingMean(r.spread, Window)
    ensures r.position == PositionColumn(z)
    ensures r.pnl == Pnl(r.position, r.spread)
    ensures r.cumulativePnl == CumulativePnl(r.position, r.spread)
    ensures r.totalProfit == TotalProfit(r.position, r.spread)
    ensures |a| == 0 ==> r.totalProfit.Err?
    ensures |a| == 1 ==> r.totalProfit == Ok(None)
    ensures |a| >= 2 ==> r.totalProfit == Ok(Some(LaggedProfit(r.position, r.spread, |a| - 1)))
  {
    var spread := Spread(a, b, h);
    var verdict := Classify(pValue);
    var spreadMean := RollingMean(spread, Window);
    var position := BuildPositions(z);
    var pnl := Pnl(position, spread);
    var cumulative := CumulativeSum(pnl);
    var total := Last(cumulative);
    TotalProfitValue(position, spread);
    r := Report(spread, verdict, spreadMean, position, pnl, cumulative, total);
  }

  /**
   * Two identical price series hedged one for one: the spread never moves, so the
   * backtest makes exactly nothing whatever the z-scores.
   */
  lemma IdenticalSeriesEarnNothing(a: seq<real>, z: seq<Option<real>>)
    requires |a| == |z| >= 2
    ensures TotalProfit(PositionColumn(z), Spread(a, a, 1.0)) == Ok(Some(0.0))
  {
    var spread := Spread(a, a, 1.0);
    var position := PositionColumn(z);
    PositionRule(z, 0);
    IdenticalSeriesHaveZeroSpread(a);
    TotalProfitValue(position, spread);
    FlatSpreadEarnsNothing(position, spread, |a| - 1);
  }

  /**
   * A z-score is NaN wherever the rolling statistics of line 67-68 are, so before row 29
   * the book is flat and the running PnL up to row 29 is zero.
   */
  lemma NoTradeBeforeFirstWindow(s: seq<real>, z: seq<Option<real>>)
    requires |s| == |z|
    requires forall t :: 0 <= t < |z| && z[t].Some? ==> RollingMean(s, Window)[t].Some?
    ensures forall t :: 0 <= t < |z| && t < Window - 1 ==> PositionColumn(z)[t] == 0
    ensures forall t :: 1 <= t < |z| && t <= Window - 1 ==>
      CumulativePnl(PositionColumn(z), s)[t] == Some(0.0)
  {
    var position := PositionColumn(z);
    forall t | 0 <= t < |z| && t < Window - 1
      ensures position[t] == 0
    {
      PositionRule(z, t);
    }
    forall t | 1 <= t < |z| && t <= Window - 1
      ensures CumulativePnl(position, s)[t] == Some(0.0)
    {
      PositionRule(z, 0);
      CumulativePnlAt(position, s, t);
      HoldingTelescopes(position, s, 0, t);
      var profit := LaggedProfit(position, s, t);
      assert profit == 0.0;
    }
  }
}
