/** Year-over-year change anchored on the calendar: each row compared with the
    same quarter one year earlier in its group, which is what the YoY docstring
    and the "shift by 4 quarters" comment describe. The positional version in
    `Growth` coincides with it only while a group has no missing quarter. */
module CalendarLag {
  import opened Periods
  import opened Rows
  import opened Aggregation
  import opened Growth
  import PeriodSort
  import Lexical

  /** Where a cell was found, if anywhere. */
  datatype Lookup = NotFound | Found(index: nat)

  /** The position of the cell at (k, p), if there is one. */
  function FindCell(cells: seq<Cell>, k: string, p: Period): (r: Lookup)
    ensures r.Found? ==> r.index < |cells| && cells[r.index].key == k && cells[r.index].period == p
    ensures r.NotFound? <==> !Has(cells, k, p)
  {
    if cells == [] then NotFound
    else if cells[0].key == k && cells[0].period == p then
      assert cells[0] in cells;
      Found(0)
    else
      match FindCell(cells[1..], k, p)
      case NotFound =>
        assert forall c :: c in cells ==> c == cells[0] || c in cells[1..];
        NotFound
      case Found(j) =>
        assert cells[j + 1] in cells;
        Found(j + 1)
  }

  /** The same quarter one year earlier. */
  function SameQuarterLastYear(p: Period): (q: Period)
    ensures Ordinal(q) == Ordinal(p) - 4
    ensures q.quarter == p.quarter && q.year == p.year - 1
  {
    Period(p.year - 1, p.quarter)
  }

  /** Change of row `i` against the cell of its group `quarters` calendar quarters earlier. */
  function CalendarChange(cells: seq<Cell>, i: nat, quarters: nat): Percent
    requires i < |cells|
  {
    match FindCell(cells, cells[i].key, FromOrdinal(Ordinal(cells[i].period) - quarters))
    case NotFound => Missing
    case Found(j) => PctChange(cells[j].total, cells[i].total)
  }

  /** The grouped cells with a calendar-anchored change column. */
  function CalendarGrowthTable(cells: seq<Cell>, quarters: nat): (r: seq<GrowthRow>)
    ensures CarriesCells(r, cells)
  {
    seq(|cells|, i requires 0 <= i < |cells| =>
      GrowthRow(cells[i].key, cells[i].period, cells[i].total, CalendarChange(cells, i, quarters)))
  }

  /** Year-over-year growth as the docstring describes it, for the same groupings
      as the source accepts. */
  function YoyCalendar(t: Table, g: GroupCols): (r: seq<GrowthRow>)
    requires g != PeriodOnly
    ensures CarriesCells(r, Aggregate(t, g))
  {
    AggregateOrderIndependent(PeriodSort.EnsureSorted(t), t, g);
    CalendarGrowthTable(Aggregate(PeriodSort.EnsureSorted(t), g), 4)
  }

  /** On sorted cells the calendar change of row `i` uses the total held at
      (its key, `quarters` earlier), and is missing when no cell is there. */
  lemma CalendarChangeAt(cells: seq<Cell>, i: nat, quarters: nat)
    requires StrictlySorted(cells) && i < |cells|
    ensures var back := FromOrdinal(Ordinal(cells[i].period) - quarters);
            CalendarChange(cells, i, quarters) ==
              if Has(cells, cells[i].key, back) then PctChange(TotalAt(cells, cells[i].key, back), cells[i].total)
              else Missing
  {
    var back := FromOrdinal(Ordinal(cells[i].period) - quarters);
    match FindCell(cells, cells[i].key, back)
    case NotFound =>
    case Found(j) =>
      SortedTotalAt(cells, j);
  }

  /** The calendar change of row `i` one year back, given what the cells hold at
      that quarter in terms of the rows they were built from. */
  lemma CalendarYearBack(t: Table, g: GroupCols, cells: seq<Cell>, i: nat)
    requires StrictlySorted(cells) && i < |cells|
    requires var back := SameQuarterLastYear(cells[i].period);
             (Has(cells, cells[i].key, back) <==> Present(t, g, cells[i].key, back)) &&
             TotalAt(cells, cells[i].key, back) == RowSum(t, g, cells[i].key, back)
    ensures var back := SameQuarterLastYear(cells[i].period);
            CalendarChange(cells, i, 4) ==
              if Present(t, g, cells[i].key, back) then PctChange(RowSum(t, g, cells[i].key, back), cells[i].total)
              else Missing
  {
    var back := SameQuarterLastYear(cells[i].period);
    OrdinalInjective(FromOrdinal(Ordinal(cells[i].period) - 4), back);
    CalendarChangeAt(cells, i, 4);
  }

  /** Calendar YoY, stated on the input rows: a row is compared with the total of
      its group in the same quarter of the previous year, and is missing exactly
      when its group has no rows in that quarter. */
  lemma YoyCalendarSpec(t: Table, g: GroupCols, i: nat)
    requires g != PeriodOnly && i < |Aggregate(t, g)|
    ensures |YoyCalendar(t, g)| == |Aggregate(t, g)|
    ensures YoyCalendar(t, g)[i].key == Aggregate(t, g)[i].key
    ensures YoyCalendar(t, g)[i].period == Aggregate(t, g)[i].period
    ensures YoyCalendar(t, g)[i].total == Aggregate(t, g)[i].total
    ensures var c := Aggregate(t, g)[i];
            var back := SameQuarterLastYear(c.period);
            YoyCalendar(t, g)[i].change ==
              if Present(t, g, c.key, back) then PctChange(RowSum(t, g, c.key, back), c.total) else Missing
  {
    var a := Aggregate(t, g);
    AggregateOrderIndependent(PeriodSort.EnsureSorted(t), t, g);
    AggregateTotals(t, g, a[i].key, SameQuarterLastYear(a[i].period));
    CalendarYearBack(t, g, a, i);
  }

  /** Within one group of a sorted table, rows `d` positions apart are at least
      `d` quarters apart, and exactly `d` when the group has no missing quarter. */
  lemma {:induction false} GroupSpan(cells: seq<Cell>, j: nat, i: nat)
    requires StrictlySorted(cells) && j <= i < |cells| && cells[j].key == cells[i].key
    ensures Ordinal(cells[i].period) - Ordinal(cells[j].period) >= i - j
    ensures NoGaps(cells) ==> Ordinal(cells[i].period) - Ordinal(cells[j].period) == i - j
    decreases i - j
  {
    if j < i {
      GroupsContiguous(cells, j, i - 1, i);
      GroupSpan(cells, j, i - 1);
      assert CellLess(cells[i - 1], cells[i]);
      Lexical.LessIrreflexive(cells[i].key);
      BeforeIsOrdinalOrder(cells[i - 1].period, cells[i].period);
    }
  }

  /** Consecutive rows of the same group are consecutive quarters. */
  predicate NoGaps(cells: seq<Cell>)
  {
    forall i :: 0 < i < |cells| && cells[i - 1].key == cells[i].key ==>
      Ordinal(cells[i].period) == Ordinal(cells[i - 1].period) + 1
  }

  /** When no group skips a quarter, the positional shift used by the source and
      the calendar-anchored change agree on every row. */
  lemma PositionalIsCalendarWithoutGaps(cells: seq<Cell>, lag: nat, i: nat)
    requires StrictlySorted(cells) && NoGaps(cells) && i < |cells|
    ensures ShiftChange(cells, i, lag) == CalendarChange(cells, i, lag)
  {
    var k := cells[i].key;
    var back := FromOrdinal(Ordinal(cells[i].period) - lag);
    match FindCell(cells, k, back)
    case NotFound =>
      if i >= lag && cells[i - lag].key == k {
        GroupSpan(cells, i - lag, i);
        OrdinalInjective(cells[i - lag].period, back);
        assert false;
      }
    case Found(j) =>
      if j > i {
        GroupSpan(cells, i, j);
        assert false;
      }
      GroupSpan(cells, j, i);
  }
}
