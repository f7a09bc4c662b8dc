# Vehicle-registration analytics, modelled in Dafny

This project models the analytics layer of a quarterly vehicle-registration
dashboard (`analytics.py`). The layer takes a table of registration rows and
builds four things from it:

- a **period range filter** (`filter_range`);
- a **grouped sum** per (group key, quarter) cell (the
  `groupby(group_cols + ["period"]).sum()` step);
- **QoQ and YoY growth** (`qoq_growth`, `yoy_growth`). This is a percent
  change within each group against the row 1 or 4 *positions* earlier;
- a **KPI latest delta** (`kpi_latest_delta`). This is the latest quarter's
  total over all groups, its change from the previous quarter present, and
  that change as a percentage.

Every operation in the source is a pure composition of table expressions, so
each one is a Dafny function over `seq<Row>`. The lemmas beside them state what
the functions promise.

Modules:

- `Periods`: a quarter as `Period(year, quarter)`, with chronological order and
  a quarter ordinal.
- `Lexical`: the order of text keys (code-point lexicographic, like Python's
  `str` comparison).
- `Rows`: the row record, the grouping columns, and cell sums over rows.
- `PeriodSort`: `_ensure_sorted`.
- `RangeFilter`: `filter_range`.
- `Aggregation`: the grouped sum.
- `Growth`: `qoq_growth` and `yoy_growth`.
- `Kpi`: `kpi_latest_delta`.
- `CalendarLag`: the calendar-anchored year-over-year change that the
  `yoy_growth` docstring describes (see Findings).
- `Scenarios`: worked examples on small concrete tables.

Representation choices:

- A row is `Row(period, category, manufacturer, registrations: nat)`.
- The grouping columns are `ByCategory` or `ByManufacturer` (the only lists the
  dashboard passes), or `PeriodOnly` (the `groupby("period")` of the KPI).
- A percentage is `Missing`, `Infinite` or `Value(r)`, where `r` is an exact
  real.
- Tables are values, so "returns a copy and leaves its input untouched" holds
  by construction.

The grouping uses pandas' default `sort=True`. So the grouped table is ordered
by group key and then by period. The model keeps that order: `Aggregate`
returns cells that are strictly sorted by (key, period). In the source, the
growth column is `pct_change` within each group on this sorted table. The model
writes it as a shift over the whole sorted table (`ShiftChange`). It then proves
that this shift equals the change taken inside each group's own series
(`ShiftChangeByGroup`).

Where the design description and the code disagree, the model follows the
code:

- **Output order.** The description recommends first-appearance order for
  groups. The code's grouping sorts keys.
- **Zero prior.** The description says a zero prior gives a missing value. The
  code's `pct_change` divides by zero, which gives an infinite value (or NaN for
  0/0). The model uses `Infinite`.
- **Lag.** The description says lags count calendar quarters. The code counts
  positions within the group (see Findings).

## Model

| member | source | states |
|---|---|---|
| Periods.FromOrdinal | data_loader.py:7 | the period with a given quarter ordinal has that ordinal, so "n quarters earlier" is expressible |
| Periods.OrdinalRoundTrip | data_loader.py:7 | every period is recovered from its ordinal: periods are equal exactly when year and quarter agree |
| Periods.OrdinalInjective | data_loader.py:7 | two periods with the same quarter ordinal are the same period |
| Periods.BeforeIsOrdinalOrder | analytics.py:35 | comparing periods is comparing their quarter ordinals, strictly and non-strictly |
| Periods.BeforeStrictTotalOrder | analytics.py:3-4 | the period order used for sorting is irreflexive, transitive, total and asymmetric |
| Lexical.LessIrreflexive | analytics.py:13 | no group key sorts before itself |
| Lexical.LessTransitive | analytics.py:13 | the key order used by the grouping is transitive |
| Lexical.LessTotal | analytics.py:13 | any two distinct keys are ordered one way or the other |
| Lexical.LessAsymmetric | analytics.py:13 | no two keys sort before each other |
| Rows.RowSumConcat | analytics.py:13 | a cell's sum over two tables put together is the sum of the two cell sums |
| Rows.RowSumPermutation | analytics.py:13 | a cell's sum depends only on which rows the table holds, not their order |
| PeriodSort.InsertByPeriod | analytics.py:4 | inserting a row adds exactly that row and nothing else |
| PeriodSort.InsertByPeriodSorted | analytics.py:4 | inserting a row into a chronologically sorted table keeps it sorted |
| PeriodSort.EnsureSorted | analytics.py:3-4 | the result is in chronological order and is a rearrangement of the input rows |
| RangeFilter.FilterRange | analytics.py:34-36 | keeps exactly the rows whose period lies in `[start, end]`, never adds rows |
| RangeFilter.InRange | analytics.py:35 | both bounds are inclusive: a period is in range exactly when its quarter ordinal lies between those of `start` and `end`, so the quarter just before `start` and just after `end` fall outside |
| RangeFilter.FilterRangeConcat | analytics.py:36 | filtering distributes over concatenation: relative row order is preserved |
| RangeFilter.FilterRangeCounts | analytics.py:35-36 | each in-range row is kept as many times as it occurs, unchanged; each other row is dropped |
| RangeFilter.FilterRangeIdempotent | analytics.py:34-36 | filtering twice with the same bounds equals filtering once |
| RangeFilter.FilterRangeKeepsAll | analytics.py:34-36 | a table lying wholly in range comes back identical |
| RangeFilter.FilterRangeEmptyWhenReversed | analytics.py:35 | with `start` after `end` the result is empty, not an error |
| Aggregation.CellOrder | analytics.py:13 | the grouping order on (key, period) is a strict order, total on distinct cells |
| Aggregation.CellLessDistinct | analytics.py:13 | two cells in grouping order never share a (key, period) pair |
| Aggregation.Insert | analytics.py:13 | adding a row to the grouped cells creates nothing but its own cell |
| Aggregation.InsertSorted | analytics.py:13 | adding a row keeps the cells in grouping order without duplicates |
| Aggregation.InsertTotals | analytics.py:13 | adding a row adds its registrations to its own cell only, to the grand total and to its key's total |
| Aggregation.Aggregate | analytics.py:12-13 | the grouped table is in (key, period) order with no duplicate cell |
| Aggregation.AggregateTotals | analytics.py:12-13 | each cell holds the sum of its rows; a cell exists exactly where a row falls |
| Aggregation.TotalAtAbsent | analytics.py:13 | a (key, period) pair without a cell contributes nothing |
| Aggregation.SortedTotalAt | analytics.py:13 | in the grouped table, a cell's own (key, period) total is that cell's total |
| Aggregation.AggregateSpec | analytics.py:26-27 | one cell per distinct (key, period) present in the input, none absent from it, each holding the sum of its rows |
| Aggregation.AggregateMembers | analytics.py:12-13 | a cell is in the grouped table exactly when its pair is present and its total is the rows' sum |
| Aggregation.SortedUnique | analytics.py:13 | two grouped tables in grouping order with the same cells are equal |
| Aggregation.AggregateOrderIndependent | analytics.py:10-13 | the grouped table does not depend on input row order, so the preceding sort is unobservable |
| Aggregation.AggregateGrandTotal | analytics.py:13 | the grand total of the grouped table equals the total registrations of the input |
| Aggregation.AggregateKeyTotal | analytics.py:27 | one group's cells summed over all periods equal that group's raw row total |
| Growth.PctChange | analytics.py:16 | percent change is `(cur - prior) / prior * 100`; infinite exactly when the prior is 0; never missing |
| Growth.PctChangeSign | analytics.py:16 | a finite change is positive, zero or negative as the value rose, held or fell, and is at least -100 |
| Growth.ShiftChange | analytics.py:15-16 | `pct_change(lag)` inside the grouped table: missing for the first `lag` rows and whenever the row `lag` places back belongs to another group; infinite only when that earlier total is 0 (the same at analytics.py:30-31) |
| Growth.GrowthTable | analytics.py:14-16 | the growth table keeps every grouped cell, in order, with key, period and total unchanged |
| Growth.GroupSeriesConcat | analytics.py:15 | a group's series over two tables put together is the two series concatenated |
| Growth.GroupSeriesAt | analytics.py:15 | a row's total sits at its group position in its group's series |
| Growth.GroupsContiguous | analytics.py:13-15 | in grouping order each group occupies one contiguous block of rows |
| Growth.ShiftChangeByGroup | analytics.py:14-16 | the shift over the sorted table equals the change against the entry `lag` places earlier in the row's own group, missing when fewer precede it |
| Growth.QoqGrowth | analytics.py:6-17 | needs at least one grouping column; returns exactly the grouped cells of the input, in order, with key, period and total unchanged (its growth column is characterised by `QoqGrowthSpec`) |
| Growth.YoyGrowth | analytics.py:19-32 | needs at least one grouping column; returns exactly the grouped cells of the input, in order, with key, period and total unchanged (its growth column is characterised by `YoyGrowthSpec`) |
| Growth.QoqGrowthSpec | analytics.py:6-17 | QoQ: one row per grouped cell; the first row of a group is missing, every later one compares with the previous row of its group |
| Growth.YoyGrowthSpec | analytics.py:19-32 | YoY: one row per grouped cell; the first four rows of a group are missing, row j compares with row j-4 of its group by position |
| Kpi.PeriodTotal | analytics.py:43 | a quarter's total over all groups is 0 for a quarter without rows, the whole table's total when every row is in that quarter, and never more than the table's total |
| Kpi.KpiLatestDelta | analytics.py:38-45 | on an empty table the result is `(0, 0, 0.0)`; the percentage is never missing |
| Kpi.PeriodCells | analytics.py:43 | each entry of the per-period series is a period of the table holding that period's total |
| Kpi.PeriodHasCell | analytics.py:43 | every period of the table has an entry in the per-period series |
| Kpi.PeriodSeries | analytics.py:43 | the per-period series is chronological and holds each period's total |
| Kpi.LastIsLatest | analytics.py:46 | the last entry of the sorted series is the latest period of the table |
| Kpi.SecondLastIsPrev | analytics.py:46 | the second-to-last entry is the latest period before it that is present, not necessarily adjacent |
| Kpi.KpiSinglePeriod | analytics.py:44-45 | with a single period the result is that period's total, delta 0 and 0.0 percent |
| Kpi.KpiLatestDeltaSpec | analytics.py:46-49 | with two or more periods: the latest total, its difference from the previous present period, and `delta / prev * 100`, infinite when `prev` is 0 |
| CalendarLag.FindCell | analytics.py:28 | finds the position of the cell at a given (key, period), or reports that there is none |
| CalendarLag.SameQuarterLastYear | analytics.py:21 | the same quarter one year earlier is exactly four quarters back |
| CalendarLag.CalendarChangeAt | analytics.py:21-22 | the calendar change compares with the cell `quarters` earlier in the same group, or is missing |
| CalendarLag.CalendarYearBack | analytics.py:21-22 | the calendar year-back change of a cell in terms of the rows of that earlier quarter |
| CalendarLag.YoyCalendar | analytics.py:19-27 | needs at least one grouping column; returns exactly the grouped cells of the input, in order, with key, period and total unchanged (its growth column is characterised by `YoyCalendarSpec`) |
| CalendarLag.YoyCalendarSpec | analytics.py:19-31 | corrected YoY: compares with the group's total in the same quarter last year, missing exactly when that quarter has no rows |
| CalendarLag.GroupSpan | analytics.py:29-31 | rows d positions apart in a group are at least d quarters apart, and exactly d when there are no gaps |
| CalendarLag.PositionalIsCalendarWithoutGaps | analytics.py:29-31 | when no group skips a quarter, the positional and calendar changes agree on every row |
| Scenarios.GrowthOnFiveQuarters | analytics.py:14-16 | values 10..50: QoQ first row missing, second +100; YoY first four missing, fifth +400 |
| Scenarios.GrowthFromZero | analytics.py:16 | values 0 then 5: growth of the second row is infinite, not 0 |
| Scenarios.GrowthStaysInGroup | analytics.py:15 | a row is never compared with a row of another group |
| Scenarios.QoqOnRows | analytics.py:6-17 | two rows given newest first: sorted, grouped, then `(10, missing)` and `(30, +200)` |
| Scenarios.YoyOnRows | analytics.py:19-32 | the same two rows under YoY: both missing, since fewer than four rows precede each in its group |
| Scenarios.GroupPrepend | analytics.py:12-13 | a row whose (key, period) sorts before every grouped cell of the rest opens its own cell at the front |
| Scenarios.GroupMerge | analytics.py:12-13 | a row of the first cell's (key, period) adds its registrations to that cell |
| Scenarios.GroupedSumOnRows | analytics.py:12-13 | two makers' rows in one category and quarter (25 and 15) are summed into one cell of 40, after the earlier quarters' cells |
| Scenarios.KpiOnTwoQuarters | analytics.py:43-49 | totals 100 then 150 (the first summed over two groups) give `(150, 50, 50.0)` |
| Scenarios.KpiOnOneQuarter | analytics.py:44-45 | a single quarter of 100 gives `(100, 0, 0.0)` |
| Scenarios.KpiFromZero | analytics.py:48 | a previous total of 0 gives an infinite percentage even when the delta is 0 |
| Scenarios.FilterBoundaries | analytics.py:35 | rows at both bounds are kept; the quarters just outside are dropped |
| Scenarios.PositionalYoyCrossesGap | analytics.py:29-31 | with 2023Q3 missing, positional YoY of 2024Q2 compares with 2023Q1, five quarters back |
| Scenarios.CalendarYoyOverGap | analytics.py:21 | the calendar reading of the same row compares with 2023Q2 and gives +150 |
| Scenarios.YoyGapDiscrepancy | analytics.py:21-31 | on a group with a missing quarter the two readings of year over year differ |

## Left out

- The dashboard's page, widgets, charts and process-wide data cache are not
  part of this model. They are presentation code. Its own inline
  `groupby(...).sum()` calls repeat the grouped sum modelled here, and its
  merge of the QoQ and YoY tables only assembles them for display.
- CSV reading, date-string parsing, title/upper casing and the debug print of
  the loader are not part of this model. Its output is taken as given: every
  row has a `Period`, and registrations are a `nat`. The derived `year`,
  `quarter` and `period_str` display columns are not modelled.
- Floating point is not modelled. Percentages are exact reals. Both `inf`
  (prior 0, current positive) and `NaN` (0/0) become the single `Infinite`
  marker.
- `pct_change`'s fill method is not modelled. It pads missing values, and a
  sum of registrations is never missing, so it has no effect here.
- Multi-column group keys are not modelled. The key is one column
  (`category` or `manufacturer`) or none (the KPI). These are the only
  groupings the dashboard uses.
- The `value_col` argument is fixed to `registrations`. That is the only
  value the dashboard passes.
- Schema errors (a missing column) cannot arise. Columns are record fields.
- The row index labels that pandas keeps through `filter_range` are not
  modelled. Only row contents and their order are.
- An empty list of grouping columns is not accepted by `QoqGrowth`, `YoyGrowth`
  and `YoyCalendar` (`requires g != PeriodOnly`). pandas raises an error for a
  `groupby` with no keys, so the source has no result to model there.
- Growth.QoqGrowth, Growth.YoyGrowth and Kpi.PeriodTotal: cell and KPI sums are
  unbounded `nat`s, while pandas sums in 64-bit integers (analytics.py:13, 27
  and 43). Overflow past 2^63 - 1 is not modelled. Registration counts are
  far below that bound.
- `int()` in the KPI is not modelled separately. It is the identity on sums of
  whole numbers.
- PeriodSort.EnsureSorted is a stable insertion sort. pandas' default sort is
  not stable. `AggregateOrderIndependent` proves that the grouped table, and
  so every growth table, does not depend on the input order. So this choice
  cannot be observed.

## Findings

| source | as written | input that shows it | evidently intended | confidence | as-written member | corrected member |
|---|---|---|---|---|---|---|
| analytics.py:19-31 | YoY compares each row with the row 4 positions earlier in its group (`pct_change(4)`) | one group with quarters 2023Q1, 2023Q2, 2023Q4, 2024Q1, 2024Q2 (2023Q3 missing) and values 10, 20, 30, 40, 50: the 2024Q2 row is compared with 2023Q1, five quarters back (+400%), not with 2023Q2 (+150%) | the docstring ("compares current period to same quarter last year") and the comment ("shift by 4 quarters"): compare with the same quarter of the previous year | medium; not executed | Scenarios.YoyGapDiscrepancy | CalendarLag.YoyCalendarSpec |

The dashboard shows the positional reading, so `Growth.YoyGrowth` keeps it.
`CalendarLag.YoyCalendar` is the corrected definition. Its property is proved in
`CalendarLag.YoyCalendarSpec`. `CalendarLag.PositionalIsCalendarWithoutGaps`
proves that the two agree whenever no group skips a quarter.
