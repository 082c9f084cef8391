# Sandbox price dashboard: the update pipeline

This project models the per-interaction update of a small price dashboard
(`update_data` in `test2.py`). The dashboard shows a time series of
(date, price) rows. A date picker (start and end, either possibly unset) and
an hour slider (`[hourLo, hourHi]`) select part of it. On every change the
callback does four things:

- it selects the rows to show (`RangeFilter`, `Dashboard.Considered`);
- it builds the line-chart figure of those rows (`Chart`);
- it computes the statistics panel of those rows and of the separate daily
  snapshot series `df18h` (`Statistics`): percentage variation, maximum,
  minimum and spread;
- it reports the latest price of the full series (`Dashboard.UpdateData`).

Dates are whole seconds since the epoch (UTC) and prices are exact `real`s.
`end.date()` is midnight of the end's day, `t - t % 86400`.

Behaviour kept exactly as the code has it:
- The window is `[start + hourLo h, midnight(end) + hourHi h]`, inclusive at
  both ends. The start is not truncated to its day but the end is. The hours
  bound only the first and the last day, not every day in between
  (`HoursNotAppliedPerDay`, `StartInstantDroppedForPositiveHourLo`).
- With a date unset, the whole series is used and the hours are ignored.
- The callback aborts, with an `IndexError` from the `iloc` indexing, when the selected
  rows are empty or the snapshot is empty. This is `UpdateData`'s
  `Failure(EmptyRange)` / `Failure(EmptySnapshot)`. The code renders no
  placeholder; the callback aborts.
- A zero first price does not abort: the float division gives +inf, -inf or
  NaN (`Statistics.Ratio`). The red/green colour compares that value with 0.
- `hourLo > hourHi` is not rejected and does not by itself empty the
  selection. Only the two window bounds are compared, so a multi-day range
  with inverted hours still keeps its middle days (`HoursNotAppliedPerDay`);
  only a window whose bounds invert keeps nothing (`InvertedWindowIsEmpty`).

Module layout: `Wrappers` (Option, Result), `Series` (rows and order
predicates), `RangeFilter`, `Statistics`, `Chart`, `Dashboard`.

## Model

| member | source | states |
|---|---|---|
| RangeFilter.TruncDay | test2.py:121-124 | `end.date()` as an instant: a multiple of one day, at most `t` and less than one day before it |
| RangeFilter.EffectiveWindow | test2.py:122-124 | lower bound is the start as given plus `hourLo` hours; upper bound is midnight of the end's day (within the day before `end`) plus `hourHi` hours |
| RangeFilter.KeptIndices | test2.py:122-125 | the boolean mask of `df.loc[...]`: strictly increasing in-range positions, containing position `i` exactly when row `i`'s date is in the closed window |
| RangeFilter.Filter | test2.py:122-125 | the rows at the kept positions, in order: never more than the series, each one a row of the series inside the window; membership and order in `FilterMembership` and `FilterPreservesOrder` |
| RangeFilter.FilterMembership | test2.py:122-125 | a row is kept if and only if it occurs in the series and its date lies in the window (both directions) |
| RangeFilter.FilterPreservesOrder | test2.py:122-125 | the filtered rows are an order-preserving subsequence of the series: row `k` of the result is the row at the `k`-th kept position, so duplicate rows are each kept |
| RangeFilter.FilterKeepsSorted | test2.py:122-125 | a date-sorted series stays sorted after filtering |
| RangeFilter.FilterKeepsBounds | test2.py:123-124 | rows exactly on the lower or the upper bound of a non-empty window are kept |
| RangeFilter.InvertedWindowIsEmpty | test2.py:122-125 | a window whose lower bound exceeds its upper bound keeps no row |
| RangeFilter.SingleDayWindow | test2.py:121-125 | start = end = day d, hours 9 to 17: window is [d 09:00, d 17:00], and exactly the rows of the series inside it are kept |
| RangeFilter.HoursNotAppliedPerDay | test2.py:123-124 | a row at least a day after the start and before the end's day is kept at any hour of the day, even with inverted hours (hourLo > hourHi) |
| RangeFilter.StartInstantDroppedForPositiveHourLo | test2.py:123 | the start is not truncated: a row at the start instant itself is dropped when `hourLo > 0` |
| Statistics.Divide | test2.py:144 | float division: finite quotient times divisor gives back the dividend; a zero divisor gives +inf, -inf or NaN according to the dividend's sign |
| Statistics.MaxPrice | test2.py:145 | maximum is one of the prices and at least every price |
| Statistics.MinPrice | test2.py:146 | minimum is one of the prices and at most every price |
| Statistics.SampleVariance | test2.py:147 | the Bessel-corrected spread is defined exactly from two rows on (NaN below) |
| Statistics.Summarize | test2.py:144-147 | panel of a non-empty column: min <= max, both are prices of the column and bound every price; variation and spread as defined |
| Statistics.Variation | test2.py:144 | `Divide(100 * (last - first), first)` over a non-empty column: finite exactly when the first price is non-zero, and then `first + first * v / 100` is the last price |
| Statistics.VariationColour | test2.py:150 | red exactly for a finite negative value or -inf; green for non-negative, +inf and NaN |
| Statistics.VariationZeroWhenUnchanged | test2.py:144 | with a non-zero first price, one row or last = first gives a variation of 0 % |
| Statistics.VariationNegativeIffFell | test2.py:144 | with a positive first price the variation is negative exactly when last < first |
| Statistics.RedIffFell | test2.py:150 | with a non-negative first price (zero included, where the figure is infinite or NaN) the figure is red exactly when last < first |
| Statistics.RedIffRoseForNegativeFirst | test2.py:150 | with a negative first price the figure is red exactly when last > first |
| Statistics.SampleVarianceNonNegative | test2.py:147 | the spread is never negative |
| Statistics.SampleVarianceZeroIffConstant | test2.py:147 | with two rows or more, the spread is 0 exactly when all prices are equal |
| Statistics.ThreePointExample | test2.py:144-147 | prices 100, 110, 90: variation -10 %, max 110, min 90, spread 100 (volatility 10) |
| Chart.Project | test2.py:128-139 | x and y have one entry per row; trace type "line", title "Graph du Sandbox (mis à jour toutes les 5 minutes)", axis titles "Date (UTC)" and "Prix en $" |
| Chart.ProjectRoundTrip | test2.py:128-133 | reading x and y back pairwise gives exactly the series, in order |
| Chart.ProjectInjective | test2.py:128-133 | different series give different figures |
| Dashboard.Considered | test2.py:119-160 | the rows shown are never more than the series' rows; with a date unset they are the whole series |
| Dashboard.UpdateData | test2.py:117-200 | aborts exactly when the rows shown are empty (first) or the snapshot is empty; otherwise figure and panel are those of the rows shown, the snapshot panel is that of the whole snapshot, and the latest price is the full series' last price |
| Dashboard.FallbackIgnoresHours | test2.py:156-175 | with a date unset the whole series is used and any two such selections, whatever their hours, give the same outputs |
| Dashboard.SelectedRows | test2.py:119-125 | with both dates set, a row is shown if and only if it is in the series and inside the effective window |
| Dashboard.ConsideredPreservesOrder | test2.py:119-125 | the rows shown keep their order in the full series, in both branches |
| Dashboard.SnapshotAndLatestPriceIndependent | test2.py:183-199 | two selections never give different snapshot panels or latest prices |
| Dashboard.LatestPriceNotLastShown | test2.py:199 | example: rows on day 0 (price 1.0) and day 2 (price 2.0), picker on day 0 alone with hours 0 to 23: the update succeeds, the chart's y is [1.0] and the latest price is 2.0 |
| Dashboard.PanelBoundsShownRows | test2.py:145-146 | with a non-empty snapshot, any row shown makes the update succeed and lies between the panel's minimum and maximum |

## Left out

- Reading the two CSV files, removing `$` and parsing prices and dates, and
  base64-encoding the logo (test2.py:15-25): I/O and library parsing. Rows
  arrive as typed values. The snapshot file's prices are never converted in
  the code; the model takes them as numbers.
- The date picker's string format: `start_date` / `end_date` arrive as
  instants in seconds, already parsed.
- The layout builders, date picker and slider set-up, including the slider's
  initial hours (test2.py:28-98): UI markup.
- The Dash application, the callback wiring and the server (test2.py:103-115,
  202-203): framework plumbing. Outputs are not updated when the callback
  aborts; the model returns a `Failure` instead.
- Volatility is `std()`, the square root of `Statistics.SampleVariance`. The
  root is not modelled (no exact square root on reals).
- `round(var, 2)`, `round(std, 5)` and the HTML text of the panels
  (test2.py:149-154, 177-182, 192-198): display formatting. The colour is
  modelled as `Statistics.VariationColour`.
- Floating point: prices and quotients are exact reals, not binary64.
  Rounding in `100 * (last - first) / first` is not modelled. Division by
  zero keeps its IEEE outcome (+inf, -inf, NaN).
- Missing values (NaN prices, NaT dates): the model's rows always hold a
  number and an instant.
