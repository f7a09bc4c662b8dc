/** `qoq_growth` and `yoy_growth`: the grouped table with a percent change per
    row, taken against the row `lag` positions earlier in the same group. */
module Growth {
  import opened Periods
  import opened Rows
  import opened Aggregation
  import Lexical
  import PeriodSort

  /** A percent-change value: missing (not enough history), infinite or
      undefined (zero prior value), or an exact finite percentage. */
  datatype Percent = Missing | Infinite | Value(pct: real)

  /** A grouped cell with its growth column (`QoQ_%` or `YoY_%`). */
  datatype GrowthRow = GrowthRow(key: string, period: Period, total: nat, change: Percent)

  /** Percent change from `prior` to `cur`, computed as `cur / prior - 1` scaled by 100. */
  function PctChange(prior: nat, cur: nat): (r: Percent)
    ensures r != Missing
    ensures r == Infinite <==> prior == 0
    ensures prior != 0 ==> r == Value((cur - prior) as real / prior as real * 100.0)
  {
    if prior == 0 then Infinite
    else
      RatioMinusOne(cur as real, prior as real);
      Value((cur as real / prior as real - 1.0) * 100.0)
  }

  /** `c / p - 1` is `(c - p) / p`. */
  lemma RatioMinusOne(c: real, p: real)
    requires p != 0.0
    ensures (c / p - 1.0) * 100.0 == (c - p) / p * 100.0
  {
    assert (c - p) / p == c / p - p / p;
    assert p / p == 1.0;
  }

  /** A finite change is positive, zero or negative as the value rose, held or fell,
      and never drops below -100 percent. */
  lemma PctChangeSign(prior: nat, cur: nat)
    requires prior != 0
    ensures PctChange(prior, cur).pct > 0.0 <==> cur > prior
    ensures PctChange(prior, cur).pct == 0.0 <==> cur == prior
    ensures PctChange(prior, cur).pct >= -100.0
  {
    var d, p := (cur - prior) as real, prior as real;
    var x := d / p;
    assert x * p == d;
    if x > 0.0 {
      assert x * p > 0.0;
    } else if x < 0.0 {
      assert x * p < 0.0;
    }
    if x < -1.0 {
      assert x * p < -1.0 * p;
    }
  }

  /** The change of row `i` against the row `lag` positions before it, provided
      that row belongs to the same group; otherwise missing. */
  function ShiftChange(cells: seq<Cell>, i: nat, lag: nat): (r: Percent)
    requires i < |cells|
    ensures i < lag ==> r == Missing
    ensures r != Missing ==> i >= lag && cells[i - lag].key == cells[i].key
    ensures r == Infinite ==> i >= lag && cells[i - lag].total == 0
  {
    if i >= lag && cells[i - lag].key == cells[i].key then PctChange(cells[i - lag].total, cells[i].total)
    else Missing
  }

  /** The growth rows carry the grouped cells, row for row and in order. */
  predicate CarriesCells(rows: seq<GrowthRow>, cells: seq<Cell>)
  {
    && |rows| == |cells|
    && forall i :: 0 <= i < |rows| ==>
         rows[i].key == cells[i].key && rows[i].period == cells[i].period && rows[i].total == cells[i].total
  }

  /** The grouped cells with their growth column attached, row for row. */
  function GrowthTable(cells: seq<Cell>, lag: nat): (r: seq<GrowthRow>)
    ensures CarriesCells(r, cells)
  {
    seq(|cells|, i requires 0 <= i < |cells| =>
      GrowthRow(cells[i].key, cells[i].period, cells[i].total, ShiftChange(cells, i, lag)))
  }

  /** `qoq_growth(df, group_cols)`: sort, group and sum, then the change over one
      position. The caller names at least one grouping column: the per-group
      step has no group keys otherwise and the source fails there. */
  function QoqGrowth(t: Table, g: GroupCols): (r: seq<GrowthRow>)
    requires g != PeriodOnly
    ensures CarriesCells(r, Aggregate(t, g))
  {
    AggregateOrderIndependent(PeriodSort.EnsureSorted(t), t, g);
    GrowthTable(Aggregate(PeriodSort.EnsureSorted(t), g), 1)
  }

  /** `yoy_growth(df, group_cols)`: sort, group and sum, then the change over four
      positions, with the same demand on the grouping columns. */
  function YoyGrowth(t: Table, g: GroupCols): (r: seq<GrowthRow>)
    requires g != PeriodOnly
    ensures CarriesCells(r, Aggregate(t, g))
  {
    AggregateOrderIndependent(PeriodSort.EnsureSorted(t), t, g);
    GrowthTable(Aggregate(PeriodSort.EnsureSorted(t), g), 4)
  }

  // ---------------------------------------------------------------------------
  // Reference: the per-group series that `groupby(group_cols)[value].pct_change(lag)` walks.

  /** The totals of the cells with key `k`, in table order: one group's series. */
  function GroupSeries(cells: seq<Cell>, k: string): seq<nat>
    decreases |cells|
  {
    if cells == [] then []
    else
      var last := cells[|cells| - 1];
      GroupSeries(cells[..|cells| - 1], k) + (if last.key == k then [last.total] else [])
  }

  /** Position of row `i` inside its own group: the number of earlier rows with its key. */
  function GroupPosition(cells: seq<Cell>, i: nat): nat
    requires i < |cells|
  {
    |GroupSeries(cells[..i], cells[i].key)|
  }

  /** The change at position `j` of one group's series against position `j - lag`. */
  function LaggedChange(series: seq<nat>, j: nat, lag: nat): Percent
    requires j < |series|
  {
    if j < lag then Missing else PctChange(series[j - lag], series[j])
  }

  /** The series of a concatenation is the concatenation of the series. */
  lemma {:induction false} GroupSeriesConcat(a: seq<Cell>, b: seq<Cell>, k: string)
    ensures GroupSeries(a + b, k) == GroupSeries(a, k) + GroupSeries(b, k)
    decreases |b|
  {
    if b == [] {
      assert a + b == a;
    } else {
      var ab := a + b;
      assert ab[..|ab| - 1] == a + b[..|b| - 1];
      assert ab[|ab| - 1] == b[|b| - 1];
      GroupSeriesConcat(a, b[..|b| - 1], k);
    }
  }

  /** A group's series is never longer than the rows it is drawn from. */
  lemma {:induction false} GroupSeriesBound(s: seq<Cell>, k: string)
    ensures |GroupSeries(s, k)| <= |s|
    decreases |s|
  {
    if s != [] {
      GroupSeriesBound(s[..|s| - 1], k);
    }
  }

  /** Rows that all carry key `k` contribute one series entry each. */
  lemma {:induction false} GroupSeriesAllKey(s: seq<Cell>, k: string)
    requires forall i :: 0 <= i < |s| ==> s[i].key == k
    ensures |GroupSeries(s, k)| == |s|
    decreases |s|
  {
    if s != [] {
      GroupSeriesAllKey(s[..|s| - 1], k);
    }
  }

  /** Rows none of which carries key `k` contribute nothing. */
  lemma {:induction false} GroupSeriesNoKey(s: seq<Cell>, k: string)
    requires forall i :: 0 <= i < |s| ==> s[i].key != k
    ensures GroupSeries(s, k) == []
    decreases |s|
  {
    if s != [] {
      GroupSeriesNoKey(s[..|s| - 1], k);
    }
  }

  /** Row `i`'s total sits at its group position in its group's series. */
  lemma GroupSeriesAt(cells: seq<Cell>, i: nat)
    requires i < |cells|
    ensures GroupPosition(cells, i) < |GroupSeries(cells, cells[i].key)|
    ensures GroupSeries(cells, cells[i].key)[GroupPosition(cells, i)] == cells[i].total
  {
    var k := cells[i].key;
    assert cells == cells[..i] + [cells[i]] + cells[i + 1..];
    GroupSeriesConcat(cells[..i] + [cells[i]], cells[i + 1..], k);
    GroupSeriesConcat(cells[..i], [cells[i]], k);
    assert GroupSeries([cells[i]], k) == [cells[i].total] by {
      assert [cells[i]][..0] == [];
    }
  }

  /** In grouping order each group occupies one contiguous block of rows. */
  lemma GroupsContiguous(cells: seq<Cell>, i: nat, m: nat, j: nat)
    requires StrictlySorted(cells)
    requires i <= m <= j < |cells| && cells[i].key == cells[j].key
    ensures cells[m].key == cells[i].key
  {
    if i < m < j && cells[m].key != cells[i].key {
      assert CellLess(cells[i], cells[m]) && CellLess(cells[m], cells[j]);
      Lexical.LessAsymmetric(cells[i].key, cells[m].key);
    }
  }

  /** The positional shift over the whole sorted table agrees with the change
      taken inside each group's own series: row `i` is compared with the entry
      `lag` places earlier in its group, and is missing when fewer than `lag`
      rows of its group precede it. */
  lemma ShiftChangeByGroup(cells: seq<Cell>, lag: nat, i: nat)
    requires StrictlySorted(cells) && i < |cells|
    ensures GroupPosition(cells, i) < |GroupSeries(cells, cells[i].key)|
    ensures ShiftChange(cells, i, lag) == LaggedChange(GroupSeries(cells, cells[i].key), GroupPosition(cells, i), lag)
  {
    var k := cells[i].key;
    var pos := GroupPosition(cells, i);
    GroupSeriesAt(cells, i);
    GroupSeriesBound(cells[..i], k);
    if i >= lag {
      var b := i - lag;
      if cells[b].key == k {
        forall m | 0 <= m < |cells[b..i]| ensures cells[b..i][m].key == k {
          GroupsContiguous(cells, b, b + m, i);
        }
        assert cells[..i] == cells[..b] + cells[b..i];
        GroupSeriesConcat(cells[..b], cells[b..i], k);
        GroupSeriesAllKey(cells[b..i], k);
        assert pos == GroupPosition(cells, b) + lag;
        GroupSeriesAt(cells, b);
      } else {
        var before := cells[..b + 1];
        forall m | 0 <= m < |before| ensures before[m].key != k {
          if cells[m].key == k {
            GroupsContiguous(cells, m, b, i);
          }
        }
        assert cells[..i] == before + cells[b + 1..i];
        GroupSeriesConcat(before, cells[b + 1..i], k);
        GroupSeriesNoKey(before, k);
        GroupSeriesBound(cells[b + 1..i], k);
      }
    }
  }

  /** QoQ, stated on the input rows: the result has one row per aggregated cell,
      carrying that cell; a group's first row is missing and every later row
      holds the change against the previous row of its group. */
  lemma QoqGrowthSpec(t: Table, g: GroupCols, i: nat)
    requires g != PeriodOnly && i < |Aggregate(t, g)|
    ensures |QoqGrowth(t, g)| == |Aggregate(t, g)|
    ensures QoqGrowth(t, g)[i].key == Aggregate(t, g)[i].key
    ensures QoqGrowth(t, g)[i].period == Aggregate(t, g)[i].period
    ensures QoqGrowth(t, g)[i].total == Aggregate(t, g)[i].total
    ensures GroupPosition(Aggregate(t, g), i) < |GroupSeries(Aggregate(t, g), Aggregate(t, g)[i].key)|
    ensures QoqGrowth(t, g)[i].change ==
      LaggedChange(GroupSeries(Aggregate(t, g), Aggregate(t, g)[i].key), GroupPosition(Aggregate(t, g), i), 1)
  {
    AggregateOrderIndependent(PeriodSort.EnsureSorted(t), t, g);
    ShiftChangeByGroup(Aggregate(t, g), 1, i);
  }

  /** YoY, stated on the input rows: a group's first four rows are missing and
      row `j >= 4` of a group holds the change against row `j - 4` of the same
      group, however many calendar quarters lie between them. */
  lemma YoyGrowthSpec(t: Table, g: GroupCols, i: nat)
    requires g != PeriodOnly && i < |Aggregate(t, g)|
    ensures |YoyGrowth(t, g)| == |Aggregate(t, g)|
    ensures YoyGrowth(t, g)[i].key == Aggregate(t, g)[i].key
    ensures YoyGrowth(t, g)[i].period == Aggregate(t, g)[i].period
    ensures YoyGrowth(t, g)[i].total == Aggregate(t, g)[i].total
    ensures GroupPosition(Aggregate(t, g), i) < |GroupSeries(Aggregate(t, g), Aggregate(t, g)[i].key)|
    ensures YoyGrowth(t, g)[i].change ==
      LaggedChange(GroupSeries(Aggregate(t, g), Aggregate(t, g)[i].key), GroupPosition(Aggregate(t, g), i), 4)
  {
    AggregateOrderIndependent(PeriodSort.EnsureSorted(t), t, g);
    ShiftChangeByGroup(Aggregate(t, g), 4, i);
  }
}
