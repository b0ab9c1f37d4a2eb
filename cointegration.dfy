/** The verdict of lines 61-64 on the p-value of the unit-root test of the spread. */
module Cointegration {
  import opened Wrappers
  import opened Series

  /** The significance level of line 61. */
  const Significance: real := 0.05

  datatype Verdict = Cointegrated | NotCointegrated

  /** `if p_value < 0.05`: a NaN p-value compares false and lands in the warning branch. */
  function Classify(p: Option<real>): (v: Verdict)
    ensures v == Cointegrated <==> p.Some? && p.value < 0.05
    ensures v == NotCointegrated <==> p.None? || p.value >= 0.05
  {
    if Lt(p, Significance) then Cointegrated else NotCointegrated
  }

  /** A smaller p-value never turns a cointegrated verdict into a warning. */
  lemma ClassifyIsMonotone(p: real, q: real)
    requires p <= q
    ensures Classify(Some(q)) == Cointegrated ==> Classify(Some(p)) == Cointegrated
    ensures Classify(Some(p)) == NotCointegrated ==> Classify(Some(q)) == NotCointegrated
  {
  }

  /** The boundary p = 0.05 is not significant. */
  lemma BoundaryIsNotCointegrated()
    ensures Classify(Some(0.05)) == NotCointegrated
  {
  }
}
