/** The spread of line 52: the residual of stock A after hedging with `h` shares of stock B. */
module SpreadBuilder {

  /** `stock_a - (hedge_ratio * stock_b)` over the aligned rows of the two price columns. */
  function Spread(a: seq<real>, b: seq<real>, h: real): (s: seq<real>)
    requires |a| == |b|
    ensures |s| == |a|
    ensures forall t :: 0 <= t < |s| ==> s[t] + h * b[t] == a[t]
  {
    seq(|a|, t requires 0 <= t < |a| => a[t] - h * b[t])
  }

  /** Adding the hedge back row by row: the inverse of `Spread`. */
  function Rehedge(s: seq<real>, b: seq<real>, h: real): seq<real>
    requires |s| == |b|
  {
    seq(|s|, t requires 0 <= t < |s| => s[t] + h * b[t])
  }

  /** The spread loses nothing: stock A is recovered from the spread and stock B. */
  lemma RehedgeInvertsSpread(a: seq<real>, b: seq<real>, h: real)
    requires |a| == |b|
    ensures Rehedge(Spread(a, b, h), b, h) == a
  {
    var back := Rehedge(Spread(a, b, h), b, h);
    assert forall t :: 0 <= t < |a| ==> back[t] == a[t];
  }

  /** The round trip of `Spread` pins it down: any series with that property is the spread. */
  lemma SpreadIsUnique(a: seq<real>, b: seq<real>, h: real, s: seq<real>)
    requires |a| == |b| == |s|
    requires forall t :: 0 <= t < |s| ==> s[t] + h * b[t] == a[t]
    ensures s == Spread(a, b, h)
  {
  }

  /** Two identical price series hedged one for one leave a spread of zero everywhere. */
  lemma IdenticalSeriesHaveZeroSpread(a: seq<real>)
    ensures forall t :: 0 <= t < |a| ==> Spread(a, a, 1.0)[t] == 0.0
  {
  }
}
