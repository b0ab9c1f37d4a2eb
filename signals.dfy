/**
 * The position column of lines 75-80. The column is seeded with the integer 0, three
 * masked assignments overwrite it, and then `ffill().fillna(0)` runs over it.
 */
module Signals {
  import opened Wrappers
  import opened Series

  /** The entry threshold of lines 77-78. */
  const EntryZ: real := 2.0
  /** The exit threshold of line 79. */
  const ExitZ: real := 0.5

  /** The three masked assignments, named by what they do. */
  datatype Write = ShortEntry | LongEntry | Exit

  /** The mask condition of each assignment on one z-score cell. */
  predicate Fires(w: Write, x: Option<real>) {
    match w
    case ShortEntry => Gt(x, EntryZ)
    case LongEntry => Lt(x, -EntryZ)
    case Exit => Lt(Abs(x), ExitZ)
  }

  /** The value each assignment stores. */
  function Value(w: Write): int {
    match w
    case ShortEntry => -1
    case LongEntry => 1
    case Exit => 0
  }

  /** The boolean mask a condition makes over the z-score column. */
  function Mask(w: Write, z: seq<Option<real>>): seq<bool> {
    seq(|z|, t requires 0 <= t < |z| => Fires(w, z[t]))
  }

  /** `col.loc[mask] = v`: rows where the mask holds get `v`, the others keep their value. */
  function Overwrite<T>(col: seq<T>, mask: seq<bool>, v: T): (r: seq<T>)
    requires |mask| == |col|
    ensures |r| == |col|
    ensures forall t :: 0 <= t < |col| && mask[t] ==> r[t] == v
    ensures forall t :: 0 <= t < |col| && !mask[t] ==> r[t] == col[t]
  {
    seq(|col|, t requires 0 <= t < |col| => if mask[t] then v else col[t])
  }

  /** The masked assignments `ws` run in order over `col`, a later one winning. */
  function ApplyWrites(col: seq<int>, z: seq<Option<real>>, ws: seq<Write>): (r: seq<int>)
    requires |col| == |z|
    ensures |r| == |col|
  {
    if |ws| == 0 then col
    else Overwrite(ApplyWrites(col, z, ws[..|ws| - 1]), Mask(ws[|ws| - 1], z), Value(ws[|ws| - 1]))
  }

  function Zeros(n: nat): seq<int> {
    seq(n, _ => 0)
  }

  /** The position a single z-score maps to: short the spread above +2, long below -2, flat otherwise. */
  function Decide(x: Option<real>): int {
    if Gt(x, EntryZ) then -1 else if Lt(x, -EntryZ) then 1 else 0
  }

  /** The column after lines 75-79: each row is the position its own z-score maps to. */
  function MaskedColumn(z: seq<Option<real>>): (r: seq<int>)
    ensures |r| == |z|
    ensures forall t :: 0 <= t < |z| ==> r[t] == Decide(z[t])
  {
    var ws := [ShortEntry, LongEntry, Exit];
    assert forall t :: 0 <= t < |z| ==> ApplyWrites(Zeros(|z|), z, ws)[t] == Decide(z[t]) by {
      forall t | 0 <= t < |z|
        ensures ApplyWrites(Zeros(|z|), z, ws)[t] == Decide(z[t])
      {
        ApplyWritesAt(Zeros(|z|), z, ws, t);
        assert Fires(ShortEntry, z[t]) ==> Fires(ws[0], z[t]);
        assert Fires(LongEntry, z[t]) ==> Fires(ws[1], z[t]);
      }
    }
    ApplyWrites(Zeros(|z|), z, ws)
  }

  /** The column after line 80: the fill of line 80 leaves every row as lines 75-79 set it. */
  function PositionColumn(z: seq<Option<real>>): (r: seq<int>)
    ensures |r| == |z|
    ensures forall t :: 0 <= t < |z| ==> r[t] == Decide(z[t])
  {
    FillOfCompleteColumn(MaskedColumn(z), 0);
    FillNa(FFill(Lift(MaskedColumn(z))), 0)
  }

  /** No z-score (present or NaN) meets two of the three mask conditions. */
  lemma MasksAreDisjoint(x: Option<real>, w1: Write, w2: Write)
    requires Fires(w1, x) && Fires(w2, x)
    ensures w1 == w2
  {
  }

  /**
   * One row after a sequence of masked assignments: untouched if no mask in it holds
   * there, and otherwise the value of the (only) assignment whose mask holds.
   */
  lemma {:induction false} ApplyWritesAt(col: seq<int>, z: seq<Option<real>>, ws: seq<Write>, t: nat)
    requires |col| == |z| && t < |z|
    ensures (forall i :: 0 <= i < |ws| ==> !Fires(ws[i], z[t])) ==> ApplyWrites(col, z, ws)[t] == col[t]
    ensures forall i :: 0 <= i < |ws| && Fires(ws[i], z[t]) ==> ApplyWrites(col, z, ws)[t] == Value(ws[i])
  {
    if |ws| > 0 {
      var init := ws[..|ws| - 1];
      ApplyWritesAt(col, z, init, t);
      forall i | 0 <= i < |ws| && Fires(ws[i], z[t])
        ensures ApplyWrites(col, z, ws)[t] == Value(ws[i])
      {
        if Fires(ws[|ws| - 1], z[t]) {
          MasksAreDisjoint(z[t], ws[i], ws[|ws| - 1]);
        } else {
          assert i < |ws| - 1 && init[i] == ws[i];
        }
      }
      if forall i :: 0 <= i < |ws| ==> !Fires(ws[i], z[t]) {
        assert forall i :: 0 <= i < |init| ==> init[i] == ws[i];
      }
    }
  }

  /**
   * The masks are disjoint, so the assignments of lines 77-79 may run in any order,
   * repeated or not, and the exit assignment may be dropped: the column is the same.
   */
  lemma WriteOrderIsIrrelevant(z: seq<Option<real>>, ws: seq<Write>)
    requires ShortEntry in ws && LongEntry in ws
    ensures ApplyWrites(Zeros(|z|), z, ws) == MaskedColumn(z)
  {
    forall t | 0 <= t < |z|
      ensures ApplyWrites(Zeros(|z|), z, ws)[t] == MaskedColumn(z)[t]
    {
      ApplyWritesAt(Zeros(|z|), z, ws, t);
      var i :| 0 <= i < |ws| && ws[i] == ShortEntry;
      var j :| 0 <= j < |ws| && ws[j] == LongEntry;
    }
  }

  /** The exit assignment of line 79 stores 0 over rows that already hold 0: it changes nothing. */
  lemma ExitWriteChangesNothing(z: seq<Option<real>>)
    ensures var entered := ApplyWrites(Zeros(|z|), z, [ShortEntry, LongEntry]);
            Overwrite(entered, Mask(Exit, z), 0) == entered
  {
    var entered := ApplyWrites(Zeros(|z|), z, [ShortEntry, LongEntry]);
    forall t | 0 <= t < |z| && Fires(Exit, z[t])
      ensures entered[t] == 0
    {
      ApplyWritesAt(Zeros(|z|), z, [ShortEntry, LongEntry], t);
    }
  }

  /**
   * The position column after line 80. Every row is -1, 0 or +1; it is -1 exactly when
   * z > 2, +1 exactly when z < -2, and 0 otherwise: at z = 2 or -2, in the band
   * 0.5 <= |z| <= 2 and where z is NaN.
   */
  lemma PositionRule(z: seq<Option<real>>, t: nat)
    requires t < |z|
    ensures |PositionColumn(z)| == |z|
    ensures PositionColumn(z)[t] == Decide(z[t])
    ensures PositionColumn(z)[t] in {-1, 0, 1}
    ensures PositionColumn(z)[t] == -1 <==> (z[t].Some? && z[t].value > 2.0)
    ensures PositionColumn(z)[t] == 1 <==> (z[t].Some? && z[t].value < -2.0)
    ensures PositionColumn(z)[t] == 0 <==> (z[t].None? || -2.0 <= z[t].value <= 2.0)
  {
  }

  /**
   * The column is memoryless: a row's position depends on that row's z-score alone,
   * so z-scores elsewhere (earlier positions included) never change it.
   */
  lemma PositionIsMemoryless(z: seq<Option<real>>, z': seq<Option<real>>, t: nat)
    requires |z| == |z'| && t < |z|
    requires z[t] == z'[t]
    ensures PositionColumn(z)[t] == PositionColumn(z')[t]
  {
    PositionRule(z, t);
    PositionRule(z', t);
  }

  /** Line 77-79, one assignment: the rows where `w`'s mask holds get `w`'s value. */
  method AssignWhere(col: array<int>, z: seq<Option<real>>, w: Write)
    requires col.Length == |z|
    modifies col
    ensures col[..] == Overwrite(old(col[..]), Mask(w, z), Value(w))
  {
    for t := 0 to col.Length
      invariant forall k :: 0 <= k < t ==> col[k] == if Fires(w, z[k]) then Value(w) else old(col[k])
      invariant forall k :: t <= k < col.Length ==> col[k] == old(col[k])
    {
      if Fires(w, z[t]) {
        col[t] := Value(w);
      }
    }
  }

  /** Lines 75-80 as the script runs them, over a column stored in place. */
  method BuildPositions(z: seq<Option<real>>) returns (position: seq<int>)
    ensures |position| == |z|
    ensures forall t :: 0 <= t < |z| ==> position[t] == Decide(z[t])
    ensures position == PositionColumn(z)
  {
    var col := new int[|z|];
    for t := 0 to col.Length
      invariant forall k :: 0 <= k < t ==> col[k] == 0
    {
      col[t] := 0;
    }
    assert col[..] == Zeros(|z|);
    AssignWhere(col, z, ShortEntry);
    assert col[..] == ApplyWrites(Zeros(|z|), z, [ShortEntry]);
    AssignWhere(col, z, LongEntry);
    assert [ShortEntry, LongEntry][..1] == [ShortEntry];
    assert col[..] == ApplyWrites(Zeros(|z|), z, [ShortEntry, LongEntry]);
    AssignWhere(col, z, Exit);
    assert [ShortEntry, LongEntry, Exit][..2] == [ShortEntry, LongEntry];
    assert col[..] == MaskedColumn(z);
    position := FillNa(FFill(Lift(col[..])), 0);
    forall t | 0 <= t < |z|
      ensures position[t] == Decide(z[t])
    {
      PositionRule(z, t);
    }
  }

  // The documented design: a three-state machine with a hold band.

  /** Some mask of lines 77-79 holds on this z-score; otherwise it lies in the hold band or is NaN. */
  predicate AnyFires(x: Option<real>) {
    Fires(ShortEntry, x) || Fires(LongEntry, x) || Fires(Exit, x)
  }

  /**
   * One transition of the documented state machine: enter short above +2, enter long
   * below -2, flatten inside +/-0.5, and otherwise keep the previous state.
   */
  function Step(state: int, x: Option<real>): (r: int)
    ensures AnyFires(x) ==> r == Decide(x)
    ensures !AnyFires(x) ==> r == state
  {
    if Fires(ShortEntry, x) then -1
    else if Fires(LongEntry, x) then 1
    else if Fires(Exit, x) then 0
    else state
  }

  /** The documented position series: the state machine run from FLAT over the z-scores. */
  function Hysteresis(z: seq<Option<real>>): (p: seq<int>)
    ensures |p| == |z|
    ensures forall t :: 0 <= t < |z| ==> p[t] in {-1, 0, 1}
    ensures forall t :: 0 <= t < |z| && AnyFires(z[t]) ==> p[t] == Decide(z[t])
    ensures forall t :: 0 < t < |z| && !AnyFires(z[t]) ==> p[t] == p[t - 1]
    ensures |z| > 0 && !AnyFires(z[0]) ==> p[0] == 0
  {
    if |z| == 0 then []
    else
      var prev := Hysteresis(z[..|z| - 1]);
      prev + [Step(if |prev| == 0 then 0 else prev[|prev| - 1], z[|z| - 1])]
  }

  /** Lines 77-79 run over a column seeded with NaN instead of 0. */
  function SeededColumn(z: seq<Option<real>>): seq<Option<int>> {
    var empty := seq(|z|, _ => None);
    var short := Overwrite(empty, Mask(ShortEntry, z), Some(-1));
    var long := Overwrite(short, Mask(LongEntry, z), Some(1));
    Overwrite(long, Mask(Exit, z), Some(0))
  }

  /** A row of the NaN-seeded column: NaN where no mask holds, else the firing assignment's value. */
  lemma SeededColumnAt(z: seq<Option<real>>, t: nat)
    requires t < |z|
    ensures |SeededColumn(z)| == |z|
    ensures SeededColumn(z)[t] ==
      if AnyFires(z[t]) then Some(Decide(z[t])) else None
  {
  }

  /**
   * Had line 75 seeded the column with NaN, line 80's `ffill().fillna(0)` would carry
   * positions through the hold band and produce exactly the documented state machine.
   */
  lemma {:induction false} NanSeedIsHysteresis(z: seq<Option<real>>)
    ensures FillNa(FFill(SeededColumn(z)), 0) == Hysteresis(z)
  {
    if |z| > 0 {
      var n := |z|;
      var init := z[..n - 1];
      NanSeedIsHysteresis(init);
      var c := SeededColumn(z);
      var ci := SeededColumn(init);
      forall t | 0 <= t < n - 1
        ensures ci[t] == c[t]
      {
        SeededColumnAt(z, t);
        SeededColumnAt(init, t);
      }
      assert ci == c[..n - 1];
      var f := FFill(c);
      assert FFill(c[..n - 1]) == f[..n - 1];
      var lhs := FillNa(f, 0);
      var h := Hysteresis(z);
      forall t | 0 <= t < n
        ensures lhs[t] == h[t]
      {
        if t < n - 1 {
          assert lhs[t] == FillNa(FFill(ci), 0)[t];
        } else {
          SeededColumnAt(z, n - 1);
          if n > 1 {
            assert lhs[n - 2] == FillNa(FFill(ci), 0)[n - 2];
          }
        }
      }
    }
  }

  /**
   * The code is not the documented state machine: after a short entry at z = 3, a row
   * at z = 1 (inside the hold band) is flattened by the code but held by the design.
   */
  lemma CodeDropsHysteresis()
    ensures PositionColumn([Some(3.0), Some(1.0)]) == [-1, 0]
    ensures Hysteresis([Some(3.0), Some(1.0)]) == [-1, -1]
  {
    var z := [Some(3.0), Some(1.0)];
    PositionRule(z, 0);
    PositionRule(z, 1);
    assert z[..1] == [Some(3.0)];
    assert Hysteresis(z[..1]) == [-1];
  }

  /**
   * Where no row falls in the hold band or is NaN, the code and the documented state
   * machine give the same positions: they differ only through the held rows.
   */
  lemma DesignAgreesWhenEveryRowFires(z: seq<Option<real>>)
    requires forall t :: 0 <= t < |z| ==> AnyFires(z[t])
    ensures Hysteresis(z) == PositionColumn(z)
  {
  }
}
