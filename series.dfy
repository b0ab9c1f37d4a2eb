/** The pandas series operations the script relies on, over exact reals with NaN as `None`. */
module Series {
  import opened Wrappers

  /** `x > c` on a float cell: NaN compares false. */
  predicate Gt(x: Option<real>, c: real) {
    x.Some? && x.value > c
  }

  /** `x < c` on a float cell: NaN compares false. */
  predicate Lt(x: Option<real>, c: real) {
    x.Some? && x.value < c
  }

  /** `abs(x)`: NaN stays NaN. */
  function Abs(x: Option<real>): (r: Option<real>)
    ensures r.Some? <==> x.Some?
    ensures r.Some? ==> r.value >= 0.0 && (r.value == x.value || r.value == -x.value)
  {
    match x
    case None => None
    case Some(v) => Some(if v < 0.0 then -v else v)
  }

  /** The product of two present cells (named, so that the solver unfolds `Times` over it). */
  function Product(u: real, v: real): real {
    u * v
  }

  /** `x * y` on float cells: NaN if either side is NaN. */
  function Times(x: Option<real>, y: Option<real>): (r: Option<real>)
    ensures r.Some? <==> x.Some? && y.Some?
    ensures r.Some? ==> r.value == x.value * y.value
  {
    if x.Some? && y.Some? then Some(Product(x.value, y.value)) else None
  }

  /** A column that has no missing cells, seen as a nullable column. */
  function Lift<T>(c: seq<T>): seq<Option<T>> {
    seq(|c|, t requires 0 <= t < |c| => Some(c[t]))
  }

  /**
   * `ffill()`: a missing cell takes the nearest present value above it;
   * cells before the first present one stay missing.
   */
  function FFill<T>(c: seq<Option<T>>): (r: seq<Option<T>>)
    ensures |r| == |c|
    ensures forall t :: 0 <= t < |c| && c[t].Some? ==> r[t] == c[t]
    ensures forall t :: 0 < t < |c| && c[t].None? ==> r[t] == r[t - 1]
    ensures |c| > 0 ==> r[0] == c[0]
    ensures forall t :: 0 <= t < |c| && r[t].None? ==> forall k :: 0 <= k <= t ==> c[k].None?
  {
    if |c| == 0 then []
    else
      var prev := FFill(c[..|c| - 1]);
      var last := c[|c| - 1];
      prev + [if last.Some? || |prev| == 0 then last else prev[|prev| - 1]]
  }

  /** `fillna(d)`: a present cell keeps its value and a missing one becomes `d`. */
  function FillNa<T>(c: seq<Option<T>>, d: T): (r: seq<T>)
    ensures |r| == |c|
    ensures forall t :: 0 <= t < |c| && c[t].Some? ==> r[t] == c[t].value
    ensures forall t :: 0 <= t < |c| && c[t].None? ==> r[t] == d
  {
    seq(|c|, t requires 0 <= t < |c| => if c[t].Some? then c[t].value else d)
  }

  /** Forward filling and then filling with a default gives back a column that had no gaps. */
  lemma FillOfCompleteColumn<T>(c: seq<T>, d: T)
    ensures FillNa(FFill(Lift(c)), d) == c
  {
    var r := FFill(Lift(c));
    assert forall t :: 0 <= t < |c| ==> r[t] == Some(c[t]);
  }

  /** `shift(1)` of an integer column: the result is a float column whose first cell is NaN. */
  function Shift(c: seq<int>): (r: seq<Option<real>>)
    ensures |r| == |c|
    ensures |c| > 0 ==> r[0].None?
    ensures forall t :: 1 <= t < |c| ==> r[t].Some? && r[t].value == c[t - 1] as real
  {
    seq(|c|, t requires 0 <= t < |c| => if t == 0 then None else Some(c[t - 1] as real))
  }

  /** `diff()`: the change from the previous row; NaN in the first row. */
  function Diff(s: seq<real>): (r: seq<Option<real>>)
    ensures |r| == |s|
    ensures |s| > 0 ==> r[0].None?
    ensures forall t :: 1 <= t < |s| ==> r[t].Some?
  {
    seq(|s|, t requires 0 <= t < |s| => if t == 0 then None else Some(s[t] - s[t - 1]))
  }

  /** The sum of the present cells, skipping NaN (pandas' `skipna=True`). */
  function SumPresent(xs: seq<Option<real>>): real {
    if |xs| == 0 then 0.0
    else SumPresent(xs[..|xs| - 1]) + (if xs[|xs| - 1].Some? then xs[|xs| - 1].value else 0.0)
  }

  /** Summing the changes undoes `diff()`: the first value plus the changes up to row t is row t. */
  lemma {:induction false} DiffSumsBack(s: seq<real>, t: nat)
    requires t < |s|
    ensures s[0] + SumPresent(Diff(s)[..t + 1]) == s[t]
  {
    var d := Diff(s);
    if t == 0 {
      assert d[..1][..0] == [];
    } else {
      DiffSumsBack(s, t - 1);
      assert d[..t + 1][..t] == d[..t];
    }
  }

  /**
   * `cumsum()` with `skipna=True`: a NaN cell stays NaN, and every present cell holds
   * the sum of the present cells up to and including it.
   */
  function CumSum(xs: seq<Option<real>>): (r: seq<Option<real>>)
    ensures |r| == |xs|
    ensures forall t :: 0 <= t < |xs| ==> (r[t].None? <==> xs[t].None?)
  {
    seq(|xs|, t requires 0 <= t < |xs| => if xs[t].None? then None else Some(SumPresent(xs[..t + 1])))
  }

  /**
   * The running sum starts at the first cell and grows by each present cell: where two
   * neighbouring cells are present, the later sum is the earlier one plus the new cell.
   */
  lemma CumSumStep(xs: seq<Option<real>>, t: nat)
    requires t < |xs| && xs[t].Some?
    ensures t == 0 ==> CumSum(xs)[t] == xs[t]
    ensures t > 0 && xs[t - 1].Some? ==> CumSum(xs)[t].value == CumSum(xs)[t - 1].value + xs[t].value
  {
    assert xs[..t + 1][..t] == xs[..t];
    assert SumPresent(xs[..t + 1]) == SumPresent(xs[..t]) + xs[t].value;
    if t == 0 {
      assert xs[..1][..0] == [];
    }
  }

  /** The running accumulation pandas performs for `cumsum()`. */
  method CumulativeSum(xs: seq<Option<real>>) returns (cum: seq<Option<real>>)
    ensures |cum| == |xs|
    ensures forall t :: 0 <= t < |xs| && xs[t].None? ==> cum[t].None?
    ensures forall t :: 0 <= t < |xs| && xs[t].Some? ==> cum[t] == Some(SumPresent(xs[..t + 1]))
    ensures cum == CumSum(xs)
  {
    var running := 0.0;
    cum := [];
    for t := 0 to |xs|
      invariant |cum| == t
      invariant running == SumPresent(xs[..t])
      invariant forall k :: 0 <= k < t ==> cum[k] == CumSum(xs)[k]
    {
      assert xs[..t + 1][..t] == xs[..t];
      if xs[t].Some? {
        running := running + xs[t].value;
        cum := cum + [Some(running)];
      } else {
        cum := cum + [None];
      }
    }
  }

  /** `iloc[-1]`: the last cell, or pandas' IndexError on an empty series. */
  function Last<T>(c: seq<T>): (r: Result<T>)
    ensures r.Ok? <==> |c| > 0
    ensures r.Ok? ==> r.value == c[|c| - 1]
  {
    if |c| == 0 then Err("single positional indexer is out-of-bounds") else Ok(c[|c| - 1])
  }
}
