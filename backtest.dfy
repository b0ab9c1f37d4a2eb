/**
 * The backtest of lines 82-86: yesterday's position times today's spread change,
 * its running sum, and the last running value as the total profit.
 */
module Backtest {
  import opened Wrappers
  import opened Series

  /** `signals['position'].shift(1) * spread.diff()`. */
  function Pnl(position: seq<int>, spread: seq<real>): (pnl: seq<Option<real>>)
    requires |position| == |spread|
    ensures |pnl| == |spread|
    ensures |spread| > 0 ==> pnl[0].None?
    ensures forall t :: 1 <= t < |spread| ==> pnl[t].Some?
  {
    var lagged := Shift(position);
    var change := Diff(spread);
    seq(|spread|, t requires 0 <= t < |spread| => Times(lagged[t], change[t]))
  }

  /** `signals['pnl'].cumsum()`. */
  function CumulativePnl(position: seq<int>, spread: seq<real>): (cum: seq<Option<real>>)
    requires |position| == |spread|
    ensures |cum| == |spread|
    ensures |spread| > 0 ==> cum[0].None?
    ensures forall t :: 1 <= t < |spread| ==> cum[t].Some?
  {
    CumSum(Pnl(position, spread))
  }

  /** `signals['cumulative_pnl'].iloc[-1]`. */
  function TotalProfit(position: seq<int>, spread: seq<real>): (r: Result<Option<real>>)
    requires |position| == |spread|
    ensures r.Ok? <==> |spread| > 0
    ensures |spread| == 1 ==> r == Ok(None)
    ensures |spread| >= 2 ==> r.Ok? && r.value.Some?
  {
    Last(CumulativePnl(position, spread))
  }

  /** The profit of holding `position[t - 1]` over each move from row `t - 1` to row `t`, for `t` in 1..k. */
  function LaggedProfit(position: seq<int>, spread: seq<real>, k: nat): real
    requires |position| == |spread| && k < |spread|
  {
    if k == 0 then 0.0
    else LaggedProfit(position, spread, k - 1) + (position[k - 1] as real) * (spread[k] - spread[k - 1])
  }

  /**
   * One row of the lagged PnL (line 83): row t earns the previous row's position times the
   * spread's change into row t.
   */
  lemma PnlAt(position: seq<int>, spread: seq<real>, t: nat)
    requires |position| == |spread| && 1 <= t < |spread|
    ensures Pnl(position, spread)[t].Some? &&
      Pnl(position, spread)[t].value == (position[t - 1] as real) * (spread[t] - spread[t - 1])
  {
  }

  /**
   * No lookahead: the PnL up to row t depends only on the positions before row t, so
   * changing position[t] (or any later one) changes no PnL up to row t.
   */
  lemma NoLookahead(position: seq<int>, position': seq<int>, spread: seq<real>, t: nat)
    requires |position| == |position'| == |spread| && t < |spread|
    requires position[..t] == position'[..t]
    ensures Pnl(position, spread)[..t + 1] == Pnl(position', spread)[..t + 1]
  {
    forall k | 0 <= k <= t
      ensures Pnl(position, spread)[k] == Pnl(position', spread)[k]
    {
      if k > 0 {
        assert position[..t][k - 1] == position'[..t][k - 1];
      }
    }
  }

  /** The last row's position is never traded: it affects no PnL, no running sum and not the total. */
  lemma LastPositionIsNeverTraded(position: seq<int>, position': seq<int>, spread: seq<real>)
    requires |position| == |position'| == |spread| > 0
    requires position[..|spread| - 1] == position'[..|spread| - 1]
    ensures Pnl(position, spread) == Pnl(position', spread)
    ensures TotalProfit(position, spread) == TotalProfit(position', spread)
  {
    var n := |spread|;
    NoLookahead(position, position', spread, n - 1);
    assert Pnl(position, spread)[..n] == Pnl(position, spread);
    assert Pnl(position', spread)[..n] == Pnl(position', spread);
  }

  /** The skipped-NaN sum of the PnL up to row k is the lagged profit over rows 1..k. */
  lemma {:induction false} PnlSumIsLaggedProfit(position: seq<int>, spread: seq<real>, k: nat)
    requires |position| == |spread| && k < |spread|
    ensures SumPresent(Pnl(position, spread)[..k + 1]) == LaggedProfit(position, spread, k)
  {
    var pnl := Pnl(position, spread);
    if k == 0 {
      assert pnl[..1][..0] == [];
    } else {
      PnlSumIsLaggedProfit(position, spread, k - 1);
      assert pnl[..k + 1][..k] == pnl[..k];
    }
  }

  /**
   * The running sum skips the NaN of the first row: it is NaN there and, from row 1 on,
   * the lagged profit so far.
   */
  lemma CumulativePnlAt(position: seq<int>, spread: seq<real>, t: nat)
    requires |position| == |spread| && t < |spread|
    ensures |CumulativePnl(position, spread)| == |spread|
    ensures t == 0 ==> CumulativePnl(position, spread)[t].None?
    ensures t > 0 ==> CumulativePnl(position, spread)[t] == Some(LaggedProfit(position, spread, t))
  {
    if t > 0 {
      PnlSumIsLaggedProfit(position, spread, t);
    }
  }

  /**
   * The total profit: pandas' IndexError on no rows, NaN on a single row, and otherwise
   * the lagged profit over the whole series.
   */
  lemma TotalProfitValue(position: seq<int>, spread: seq<real>)
    requires |position| == |spread|
    ensures |spread| == 0 ==> TotalProfit(position, spread).Err?
    ensures |spread| == 1 ==> TotalProfit(position, spread) == Ok(None)
    ensures |spread| >= 2 ==>
      TotalProfit(position, spread) == Ok(Some(LaggedProfit(position, spread, |spread| - 1)))
  {
    if |spread| > 0 {
      CumulativePnlAt(position, spread, |spread| - 1);
    }
  }

  /** Holding one position p over rows 0..k-1 earns p times the spread's move from row 0 to row k. */
  lemma {:induction false} HoldingTelescopes(position: seq<int>, spread: seq<real>, p: int, k: nat)
    requires |position| == |spread| && k < |spread|
    requires forall t :: 0 <= t < k ==> position[t] == p
    ensures LaggedProfit(position, spread, k) == (p as real) * (spread[k] - spread[0])
  {
    if k > 0 {
      HoldingTelescopes(position, spread, p, k - 1);
    }
  }

  /**
   * A position held unchanged on every row but the last makes a total profit of that
   * position times the spread's move over the whole series; a flat book makes nothing.
   */
  lemma ConstantPositionProfit(position: seq<int>, spread: seq<real>, p: int)
    requires |position| == |spread| >= 2
    requires forall t :: 0 <= t < |spread| - 1 ==> position[t] == p
    ensures TotalProfit(position, spread) == Ok(Some((p as real) * (spread[|spread| - 1] - spread[0])))
    ensures p == 0 ==> TotalProfit(position, spread) == Ok(Some(0.0))
  {
    TotalProfitValue(position, spread);
    HoldingTelescopes(position, spread, p, |spread| - 1);
    var profit := LaggedProfit(position, spread, |spread| - 1);
    var moved := (p as real) * (spread[|spread| - 1] - spread[0]);
    assert profit == moved;
    assert Ok(Some(profit)) == Ok(Some(moved));
    assert TotalProfit(position, spread) == Ok(Some(moved));
    assert p == 0 ==> moved == 0.0;
  }

  /** A spread that never moves earns nothing, whatever the positions. */
  lemma {:induction false} FlatSpreadEarnsNothing(position: seq<int>, spread: seq<real>, k: nat)
    requires |position| == |spread| && k < |spread|
    requires forall t :: 0 <= t < |spread| ==> spread[t] == spread[0]
    ensures LaggedProfit(position, spread, k) == 0.0
  {
    if k > 0 {
      FlatSpreadEarnsNothing(position, spread, k - 1);
    }
  }
}
