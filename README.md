# Pairs-trading backtest core, modelled in Dafny

This project models the deterministic core of `pairs_trader.py`, a script that backtests a
pairs-trading strategy between two stocks. It builds the spread
`stock_a - hedge_ratio * stock_b`, classes the pair as cointegrated when the unit-root test's
p-value is below 0.05, takes a 30-row trailing mean of the spread, maps the z-score of each row
to a position of -1, 0 or +1, and scores that position column against the spread with a
one-row lag. The output is a PnL column, its running sum and the total profit.

Prices and statistics are exact `real`s. A pandas NaN is `Option.None`, and every comparison
with `None` is false. The hedge ratio, the test's p-value and the z-score column are
parameters, because library code outside this model computes them.

Modules, following the script's steps:

- `Wrappers`: `Option` (a float cell or NaN) and `Result` (a lookup that can raise).
- `Series`: the pandas operations the script uses, over exact reals:
  - NaN-aware `>`, `<` and `abs`;
  - `ffill`, `fillna`, `shift(1)`, `diff()`;
  - `cumsum()` with NaN skipping, given as a function and as the running loop;
  - `iloc[-1]`.
- `SpreadBuilder`: line 52.
- `Cointegration`: lines 61-64.
- `Rolling`: lines 66-67.
- `Signals`: lines 75-80. `BuildPositions` builds the column in place, in an array: the
  line-75 zero fill, then the three masked assignments of lines 77-79 (`AssignWhere`),
  then line 80's `ffill().fillna(0)`.
- `Backtest`: lines 82-86.
- `Pipeline`: the steps above run in sequence, and properties of the whole run.

**The code is memoryless. The documented design is not.** The design describes a
state machine with a hold band. In that design a position persists while
0.5 <= |z| <= 2 and is reset only when |z| < 0.5. The code does something else. Line 75
seeds the column with the integer 0, not NaN, so the `ffill()` of line 80 never has a gap
to fill. As a result each row's position depends on that row's z-score alone, and the hold
band gives 0. The model follows the code:

- `Signals.PositionRule` and `Signals.PositionIsMemoryless` state what the code does.
- `Signals.Hysteresis` defines the documented state machine.
- `Signals.CodeDropsHysteresis` gives a two-row input on which the two differ: z = 3 then
  z = 1 gives [-1, 0] in the code and [-1, -1] in the design.
- `Signals.NanSeedIsHysteresis` proves the design's behaviour would come from seeding the
  column with NaN instead of 0.

The code also differs from the documentation in two smaller places:

- The documentation has z defined from row `W` on. pandas' `rolling(window=30)` gives a
  value as soon as a full window exists, so the first mean is at row 29, not 30
  (`Rolling.FirstFullWindow`).
- The documentation says the running PnL sums `pnl[0..t]`. In the code, `pnl[0]` is NaN,
  that row of the running sum stays NaN, and every later row sums `pnl[1..t]`
  (`Backtest.CumulativePnlAt`).

## Model

| member | source | states |
|---|---|---|
| `SpreadBuilder.Spread` | pairs_trader.py:52 | the spread has one row per price row, and adding back `h` times stock B gives stock A on every row |
| `SpreadBuilder.RehedgeInvertsSpread` | pairs_trader.py:52 | re-hedging the spread is an exact inverse: it recovers the whole stock-A series |
| `SpreadBuilder.SpreadIsUnique` | pairs_trader.py:52 | any series with the round-trip property is the spread, so that property fully specifies line 52 |
| `SpreadBuilder.IdenticalSeriesHaveZeroSpread` | pairs_trader.py:52 | two identical price series hedged one for one give a spread of zero on every row |
| `Cointegration.Classify` | pairs_trader.py:61-64 | the verdict is "cointegrated" iff the p-value is present and below 0.05; a NaN p-value or any p >= 0.05 gives the warning verdict |
| `Cointegration.ClassifyIsMonotone` | pairs_trader.py:61 | lowering the p-value never turns a cointegrated verdict into a warning, and raising it never does the reverse |
| `Cointegration.BoundaryIsNotCointegrated` | pairs_trader.py:61-64 | p = 0.05 falls in the warning branch |
| `Rolling.RollingMean` | pairs_trader.py:66-67 | the rolling mean has one row per spread row, and it is defined exactly from row `w - 1` on (defined only once a full window exists) |
| `Rolling.FirstFullWindow` | pairs_trader.py:66-69 | with the window of 30, rows 0..28 are NaN and row 29 is the first defined mean |
| `Rolling.MeanWithinWindow` | pairs_trader.py:67 | a defined mean lies between any lower and upper bound on the `w` samples of its window |
| `Rolling.MeanOfConstantWindow` | pairs_trader.py:67 | over a constant window the mean is that constant |
| `Rolling.SumIsSumPresent` | pairs_trader.py:67 | the window sum of the rolling mean is the NaN-skipping sum of `cumsum()` applied to a column without gaps: one notion of sum in both places |
| `Rolling.SlidingMean` | pairs_trader.py:67 | from one row to the next the mean moves by (newest sample - dropped sample) / w: the window is exactly the trailing `w` samples |
| `Series.FFill` | pairs_trader.py:80 | forward fill keeps every present cell, leaves the first cell as it is, and copies the previous filled value into each later missing cell; so a cell stays missing if and only if every cell up to it is missing |
| `Series.FillNa` | pairs_trader.py:80 | `fillna(d)` keeps the length, keeps the value of every present cell and puts `d` in every missing one |
| `Series.FillOfCompleteColumn` | pairs_trader.py:80 | `ffill().fillna(d)` returns a column without gaps unchanged |
| `Signals.MasksAreDisjoint` | pairs_trader.py:77-79 | no z-score satisfies two of the conditions z > 2, z < -2, abs(z) < 0.5 |
| `Signals.Overwrite` | pairs_trader.py:77-79 | one `.loc[mask, 'position'] = v` as a value: same length, `v` on the rows where the mask holds, the old value on every other row |
| `Signals.ApplyWrites` | pairs_trader.py:77-79 | the masked assignments run in order keep the column's length; the row-by-row outcome is stated by `Signals.ApplyWritesAt` |
| `Series.Abs` | pairs_trader.py:79 | `abs(z)` is NaN exactly where z is NaN, and otherwise is non-negative and equal to z or -z |
| `Signals.ApplyWritesAt` | pairs_trader.py:77-79 | after any sequence of the masked assignments, a row is unchanged if no mask in the sequence holds there, and otherwise holds the value of the assignment whose mask holds |
| `Signals.MaskedColumn` | pairs_trader.py:75-79 | the column after the zero seed and the three masked assignments in source order has one row per z row, each -1 if z > 2, +1 if z < -2, and 0 otherwise |
| `Signals.WriteOrderIsIrrelevant` | pairs_trader.py:77-79 | running the masked assignments in any order, repeated or not, gives the same column as lines 77-79, with or without the exit assignment |
| `Signals.ExitWriteChangesNothing` | pairs_trader.py:79 | the abs(z) < 0.5 assignment writes 0 only over rows that already hold 0 |
| `Signals.PositionColumn` | pairs_trader.py:80 | after `ffill().fillna(0)` every row still holds the position its own z-score maps to |
| `Signals.PositionRule` | pairs_trader.py:75-80 | every final position is -1, 0 or +1; it is -1 iff z > 2, +1 iff z < -2, and 0 iff z is NaN or -2 <= z <= 2 (the whole 0.5..2 band included) |
| `Signals.PositionIsMemoryless` | pairs_trader.py:75-80 | a row's position depends only on that row's z-score: changing z on any other row never changes it (no carry-forward) |
| `Signals.AssignWhere` | pairs_trader.py:77-79 | one `.loc[mask, 'position'] = v` in place: rows where the mask holds get `v`, all other rows keep their old value |
| `Signals.BuildPositions` | pairs_trader.py:75-80 | the in-place construction of lines 75-80 yields, on every row, the position that row's z-score maps to |
| `Signals.SeededColumnAt` | pairs_trader.py:77-79 | the same three assignments over a NaN-seeded column leave NaN exactly where no mask holds |
| `Signals.Step` | pairs_trader.py:77-79 | one transition of the documented state machine: when a mask of lines 77-79 holds it gives the code's position, and otherwise it keeps the previous state |
| `Signals.Hysteresis` | pairs_trader.py:75-80 | the documented series: every position is -1, 0 or +1, equals the code's position on rows where a mask holds, repeats the previous row in the hold band or on NaN, and starts FLAT |
| `Signals.NanSeedIsHysteresis` | pairs_trader.py:75-80 | with a NaN seed instead of 0, line 80 would produce the documented state machine that holds positions through the 0.5..2 band |
| `Signals.CodeDropsHysteresis` | pairs_trader.py:75-80 | on z = [3, 1] the code gives positions [-1, 0] and the documented state machine gives [-1, -1] |
| `Signals.DesignAgreesWhenEveryRowFires` | pairs_trader.py:75-80 | when no z-score is NaN or in the hold band, the code and the documented state machine give the same positions |
| `Series.Diff` | pairs_trader.py:82 | `diff()` has one row per spread row, NaN in row 0 and a present change on every later row |
| `Series.DiffSumsBack` | pairs_trader.py:82 | summing the changes undoes `diff()`: the first spread value plus the changes up to row t is spread[t] |
| `Series.Shift` | pairs_trader.py:83 | `shift(1)` has one row per position row, NaN in row 0, and row t holds position[t-1] for t >= 1 |
| `Backtest.Pnl` | pairs_trader.py:83 | the PnL column has one row per spread row, NaN in row 0 and a value on every later row (the value is stated by `Backtest.PnlAt`) |
| `Series.CumSum` | pairs_trader.py:84 | `cumsum()` has one row per input row and is NaN exactly where its input is NaN |
| `Series.CumSumStep` | pairs_trader.py:84 | the running sum starts with the first cell and grows by each present cell: where two neighbouring cells are present, the later sum is the earlier one plus the new cell |
| `Backtest.CumulativePnl` | pairs_trader.py:84 | the running PnL is NaN in row 0 and present on every later row (the value is stated by `Backtest.CumulativePnlAt`) |
| `Series.CumulativeSum` | pairs_trader.py:84 | the running loop of `cumsum()`: a NaN cell stays NaN, and every present cell holds the sum of the present cells up to it |
| `Series.Last` | pairs_trader.py:86 | `iloc[-1]` succeeds exactly on a non-empty column, with its last cell |
| `Series.Times` | pairs_trader.py:83 | `x * y` on float cells is present exactly when both sides are, and then it is their product; so NaN on either side gives NaN |
| `Backtest.PnlAt` | pairs_trader.py:82-83 | for row t >= 1, pnl[t] = position[t-1] * (spread[t] - spread[t-1]) |
| `Backtest.NoLookahead` | pairs_trader.py:83 | the PnL up to row t is the same for any two position columns that agree before row t, so position[t] alone never changes pnl[t] |
| `Backtest.LastPositionIsNeverTraded` | pairs_trader.py:83-86 | the last row's position changes neither the PnL column nor the total profit |
| `Backtest.PnlSumIsLaggedProfit` | pairs_trader.py:83-84 | the NaN-skipping sum of pnl[0..k] is the sum over t in 1..k of position[t-1] * (spread[t] - spread[t-1]) |
| `Backtest.CumulativePnlAt` | pairs_trader.py:84 | the running PnL is NaN at row 0 and equals sum(pnl[1..t]) at every row t >= 1 |
| `Backtest.TotalProfit` | pairs_trader.py:86 | the total profit is an IndexError exactly when there are no rows, NaN with one row, and a number with two or more (its value is stated by `Backtest.TotalProfitValue`) |
| `Backtest.TotalProfitValue` | pairs_trader.py:84-86 | the total profit is an IndexError with no rows, NaN with one row, and otherwise the lagged profit over the whole series |
| `Backtest.HoldingTelescopes` | pairs_trader.py:83-84 | if one position p is held on rows 0..k-1, the profit up to row k is p * (spread[k] - spread[0]) |
| `Backtest.ConstantPositionProfit` | pairs_trader.py:83-86 | if the position is p on every row but the last, the total profit is p * (spread[n-1] - spread[0]), and 0 when p = 0 |
| `Backtest.FlatSpreadEarnsNothing` | pairs_trader.py:82-84 | a spread that never moves earns zero whatever the positions |
| `Pipeline.Run` | pairs_trader.py:52-86 | the script's sequence gives the spread, verdict, rolling mean, positions, PnL and running PnL above, and the total profit is an error, NaN, or the lagged profit over the sample, by number of rows |
| `Pipeline.IdenticalSeriesEarnNothing` | pairs_trader.py:52-86 | with at least two rows, two identical price series hedged one for one make a total profit of exactly 0 whatever the z-scores (with one row the total is NaN, as `Backtest.TotalProfitValue` states) |
| `Pipeline.NoTradeBeforeFirstWindow` | pairs_trader.py:66-84 | when z is NaN wherever the rolling mean is, the positions before row 29 are 0 and the running PnL is 0 on rows 1..29 |

## Left out

- Data download, the empty-data exit, column selection and alignment with `dropna` (lines 13-39). These are network I/O and DataFrame plumbing. The model starts from two equal-length price columns.
- The OLS estimate of the hedge ratio (lines 44-48). This is a statsmodels regression in floating point. The ratio `h` is a parameter.
- The ADF unit-root test itself (lines 57-58). It is a statsmodels routine. Only the threshold rule on its p-value is modelled, and the p-value is a parameter.
- The rolling standard deviation and the z-score division (lines 68-69). They need a square root and float division by a possibly zero deviation. The z-score column is a parameter. `Pipeline.NoTradeBeforeFirstWindow` takes as a hypothesis that z is NaN wherever the rolling mean is NaN.
- The Sharpe ratio (line 87). It needs `sqrt(252)` and a standard deviation.
- All printing and plotting (lines 60, 62, 64, 89-109). These are output only. The verdict is modelled as a value, not as the printed message.
- IEEE floating-point rounding, infinities and the int64/float64 dtypes. Arithmetic is exact over `real`, and NaN is `None`.
- `Rolling.RollingMean`: it takes the window as a parameter and requires it to be positive. The script only uses 30, and pandas' behaviour for a window of 0 is not modelled.
- Sequences are modelled as plain positional columns. The two price columns share one index after `dropna`, so pandas' index alignment in the column arithmetic never reorders or adds rows, and it is not modelled.
