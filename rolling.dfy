/** The trailing mean of lines 66-67: `spread.rolling(window=30).mean()`. */
module Rolling {
  import opened Wrappers
  import Series

  /** The window length of line 66. */
  const Window: nat := 30

  function Sum(xs: seq<real>): real {
    if |xs| == 0 then 0.0 else Sum(xs[..|xs| - 1]) + xs[|xs| - 1]
  }

  /** `Sum` is the NaN-skipping sum of `Series` on a column without gaps. */
  lemma {:induction false} SumIsSumPresent(xs: seq<real>)
    ensures Series.SumPresent(Series.Lift(xs)) == Sum(xs)
  {
    if |xs| > 0 {
      SumIsSumPresent(xs[..|xs| - 1]);
      assert Series.Lift(xs)[..|xs| - 1] == Series.Lift(xs[..|xs| - 1]);
    }
  }

  /**
   * The mean of the `w` samples ending at each row. With pandas' default `min_periods`
   * (the window length) a row without a full window behind it is NaN.
   */
  function RollingMean(s: seq<real>, w: nat): (m: seq<Option<real>>)
    requires w > 0
    ensures |m| == |s|
    ensures forall t :: 0 <= t < |s| ==> (m[t].Some? <==> t >= w - 1)
  {
    seq(|s|, t requires 0 <= t < |s| =>
      if t + 1 < w then None else Some(Sum(s[t + 1 - w..t + 1]) / (w as real)))
  }

  /** Peeling the first element off a sum. */
  lemma {:induction false} SumFront(xs: seq<real>)
    requires |xs| > 0
    ensures Sum(xs) == xs[0] + Sum(xs[1..])
  {
    if |xs| > 1 {
      SumFront(xs[..|xs| - 1]);
      assert xs[..|xs| - 1][1..] == xs[1..][..|xs| - 2];
    }
  }

  /** Every summand between `lo` and `hi` bounds the sum by `n * lo` and `n * hi`. */
  lemma {:induction false} SumBounds(xs: seq<real>, lo: real, hi: real)
    requires forall k :: 0 <= k < |xs| ==> lo <= xs[k] <= hi
    ensures (|xs| as real) * lo <= Sum(xs) <= (|xs| as real) * hi
  {
    if |xs| > 0 {
      SumBounds(xs[..|xs| - 1], lo, hi);
    }
  }

  /** A defined rolling mean lies between the smallest and the largest sample of its window. */
  lemma MeanWithinWindow(s: seq<real>, w: nat, t: nat, lo: real, hi: real)
    requires w > 0 && w - 1 <= t < |s|
    requires forall k :: t + 1 - w <= k <= t ==> lo <= s[k] <= hi
    ensures RollingMean(s, w)[t].Some?
    ensures lo <= RollingMean(s, w)[t].value <= hi
  {
    var win := s[t + 1 - w..t + 1];
    SumBounds(win, lo, hi);
    assert |win| == w;
    var n := w as real;
    var m := Sum(win) / n;
    assert m * n == Sum(win);
    if m < lo {
      assert m * n < lo * n;
    }
    if m > hi {
      assert m * n > hi * n;
    }
  }

  /** Over a constant stretch of `w` samples the rolling mean is that constant. */
  lemma MeanOfConstantWindow(s: seq<real>, w: nat, t: nat, c: real)
    requires w > 0 && w - 1 <= t < |s|
    requires forall k :: t + 1 - w <= k <= t ==> s[k] == c
    ensures RollingMean(s, w)[t] == Some(c)
  {
    MeanWithinWindow(s, w, t, c, c);
  }

  /**
   * Moving the window one row on adds the new sample and drops the oldest one,
   * so the mean moves by their difference over `w`.
   */
  lemma SlidingMean(s: seq<real>, w: nat, t: nat)
    requires w > 0 && w <= t < |s|
    ensures RollingMean(s, w)[t].Some? && RollingMean(s, w)[t - 1].Some?
    ensures RollingMean(s, w)[t].value
         == RollingMean(s, w)[t - 1].value + (s[t] - s[t - w]) / (w as real)
  {
    var prev := s[t - w..t];
    var next := s[t - w + 1..t + 1];
    SumFront(prev);
    assert prev[1..] == next[..|next| - 1];
    assert Sum(next) == Sum(prev) - s[t - w] + s[t];
  }

  /** With the window of line 66 the first defined mean, and so the first defined z-score, is at row 29. */
  lemma FirstFullWindow(s: seq<real>)
    requires |s| >= Window
    ensures RollingMean(s, Window)[29].Some?
    ensures forall t :: 0 <= t < 29 ==> RollingMean(s, Window)[t].None?
  {
  }
}
