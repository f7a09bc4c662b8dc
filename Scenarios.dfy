/** Worked examples of the analytics on small concrete tables. */
module Scenarios {
  import opened Periods
  import opened Rows
  import opened Aggregation
  import opened Growth
  import opened Kpi
  import opened RangeFilter
  import CalendarLag
  import Lexical

  /** One category's totals over five consecutive quarters: 10, 20, 30, 40, 50. */
  function FiveQuarters(): seq<Cell>
  {
    [Cell("CAR", Period(2023, 1), 10), Cell("CAR", Period(2023, 2), 20), Cell("CAR", Period(2023, 3), 30),
     Cell("CAR", Period(2023, 4), 40), Cell("CAR", Period(2024, 1), 50)]
  }

  /** QoQ: the first row is missing and the second is +100%. YoY: the first four
      rows are missing and the fifth is +400%. */
  lemma GrowthOnFiveQuarters()
    ensures GrowthTable(FiveQuarters(), 1)[0].change == Missing
    ensures GrowthTable(FiveQuarters(), 1)[1].change == Value(100.0)
    ensures forall i :: 0 <= i < 4 ==> GrowthTable(FiveQuarters(), 4)[i].change == Missing
    ensures GrowthTable(FiveQuarters(), 4)[4].change == Value(400.0)
  {
  }

  /** A zero prior value gives the infinite marker, not 0 and not a failure. */
  lemma GrowthFromZero()
    ensures GrowthTable([Cell("BUS", Period(2024, 1), 0), Cell("BUS", Period(2024, 2), 5)], 1)[1].change == Infinite
  {
  }

  /** Rows of two groups do not feed each other's growth. */
  lemma GrowthStaysInGroup()
    ensures GrowthTable([Cell("BUS", Period(2024, 1), 7), Cell("CAR", Period(2024, 2), 5)], 1)[1].change == Missing
  {
  }

  /** From raw rows given out of order: sorting, grouping and summing come first,
      then the quarter-over-quarter change, +200% from 10 to 30. */
  lemma QoqOnRows()
    ensures QoqGrowth([Row(Period(2024, 2), "CAR", "Tata", 30), Row(Period(2024, 1), "CAR", "Tata", 10)], ByCategory)
            == [GrowthRow("CAR", Period(2024, 1), 10, Missing), GrowthRow("CAR", Period(2024, 2), 30, Value(200.0))]
  {
  }

  /** One step of the grouped sum: a row whose cell sorts before every cell of
      the rest opens a new cell at the front. */
  lemma GroupPrepend(r: Row, rest: Table, g: GroupCols, cells: seq<Cell>)
    requires Aggregate(rest, g) == cells
    requires cells == [] || CellLess(Cell(Key(r, g), r.period, r.registrations), cells[0])
    ensures Aggregate([r] + rest, g) == [Cell(Key(r, g), r.period, r.registrations)] + cells
  {
    assert ([r] + rest)[1..] == rest;
    if cells != [] {
      CellLessDistinct(Cell(Key(r, g), r.period, r.registrations), cells[0]);
    }
  }

  /** One step of the grouped sum: a row of the first cell's own pair adds its
      registrations to that cell. */
  lemma GroupMerge(r: Row, rest: Table, g: GroupCols, cells: seq<Cell>)
    requires Aggregate(rest, g) == cells
    requires cells != [] && cells[0].key == Key(r, g) && cells[0].period == r.period
    ensures Aggregate([r] + rest, g) == [Cell(Key(r, g), r.period, cells[0].total + r.registrations)] + cells[1..]
  {
    var t := [r] + rest;
    assert t[0] == r && t[1..] == rest;
    assert Aggregate(t, g) == Insert(cells, Key(r, g), r.period, r.registrations);
  }

  /** Within one key, an earlier quarter sorts first. */
  lemma EarlierFirst(a: Cell, b: Cell)
    requires a.key == b.key && Before(a.period, b.period)
    ensures CellLess(a, b)
  {
  }

  /** The later car rows, 2023 Q3 to 2024 Q1 with two makers in 2024 Q1: grouping
      sums those two rows into one cell of 40. */
  lemma GroupedSumOnRows(c3: Row, c4: Row, tata: Row, maruti: Row)
    requires c3 == Row(Period(2023, 3), "CAR", "Tata", 5) && c4 == Row(Period(2023, 4), "CAR", "Tata", 5)
    requires tata == Row(Period(2024, 1), "CAR", "Tata", 25) && maruti == Row(Period(2024, 1), "CAR", "Maruti", 15)
    ensures Aggregate([c3, c4, tata, maruti], ByCategory)
         == [Cell("CAR", Period(2023, 3), 5), Cell("CAR", Period(2023, 4), 5), Cell("CAR", Period(2024, 1), 40)]
  {
    var q3, q4 := Cell("CAR", Period(2023, 3), 5), Cell("CAR", Period(2023, 4), 5);
    var y := Cell("CAR", Period(2024, 1), 40);
    GroupPrepend(maruti, [], ByCategory, []);
    assert [maruti] + [] == [maruti];
    GroupMerge(tata, [maruti], ByCategory, [Cell("CAR", Period(2024, 1), 15)]);
    assert [tata] + [maruti] == [tata, maruti];
    EarlierFirst(q4, y);
    GroupPrepend(c4, [tata, maruti], ByCategory, [y]);
    assert [c4] + [tata, maruti] == [c4, tata, maruti];
    EarlierFirst(q3, q4);
    GroupPrepend(c3, [c4, tata, maruti], ByCategory, [q4, y]);
    assert [c3] + [c4, tata, maruti] == [c3, c4, tata, maruti];
  }

  /** The same two rows under year-over-year growth: a group needs four earlier
      rows before a change appears, so both rows are missing. */
  lemma YoyOnRows()
    ensures YoyGrowth([Row(Period(2024, 2), "CAR", "Tata", 30), Row(Period(2024, 1), "CAR", "Tata", 10)], ByCategory)
            == [GrowthRow("CAR", Period(2024, 1), 10, Missing), GrowthRow("CAR", Period(2024, 2), 30, Missing)]
  {
  }

  /** Two quarters with 100 and 150 registrations: latest 150, delta 50, +50%. */
  lemma KpiOnTwoQuarters()
    ensures KpiLatestDelta([Row(Period(2024, 1), "CAR", "Tata", 60), Row(Period(2024, 2), "CAR", "Tata", 150),
                            Row(Period(2024, 1), "BUS", "Ashok", 40)])
            == LatestDelta(150, 50, Value(50.0))
  {
  }

  /** One quarter: its total, no delta, zero percent. */
  lemma KpiOnOneQuarter()
    ensures KpiLatestDelta([Row(Period(2024, 1), "CAR", "Tata", 100)]) == LatestDelta(100, 0, Value(0.0))
  {
  }

  /** The previous total is 0: infinite percentage. */
  lemma KpiFromZero()
    ensures KpiLatestDelta([Row(Period(2024, 1), "CAR", "Tata", 0), Row(Period(2024, 3), "CAR", "Tata", 0)])
            == LatestDelta(0, 0, Infinite)
  {
  }

  /** Both bounds of the range are kept; the quarters just outside are dropped. */
  lemma FilterBoundaries()
    ensures FilterRange([Row(Period(2023, 4), "CAR", "Tata", 1), Row(Period(2024, 1), "CAR", "Tata", 2),
                         Row(Period(2024, 2), "CAR", "Tata", 3), Row(Period(2024, 3), "CAR", "Tata", 4)],
                        Period(2024, 1), Period(2024, 2))
            == [Row(Period(2024, 1), "CAR", "Tata", 2), Row(Period(2024, 2), "CAR", "Tata", 3)]
  {
    var t := [Row(Period(2023, 4), "CAR", "Tata", 1), Row(Period(2024, 1), "CAR", "Tata", 2),
              Row(Period(2024, 2), "CAR", "Tata", 3), Row(Period(2024, 3), "CAR", "Tata", 4)];
    var lo, hi := Period(2024, 1), Period(2024, 2);
    assert FilterRange(t[3..], lo, hi) == [] by {
      assert t[3..][1..] == [];
    }
    assert FilterRange(t[2..], lo, hi) == [t[2]] by {
      assert t[2..][1..] == t[3..];
    }
    assert FilterRange(t[1..], lo, hi) == [t[1], t[2]] by {
      assert t[1..][1..] == t[2..];
    }
  }

  /** One category with 2023Q3 missing: 10, 20, _, 30, 40, 50 over 2023Q1..2024Q2. */
  function QuarterMissing(): seq<Cell>
  {
    [Cell("CAR", Period(2023, 1), 10), Cell("CAR", Period(2023, 2), 20), Cell("CAR", Period(2023, 4), 30),
     Cell("CAR", Period(2024, 1), 40), Cell("CAR", Period(2024, 2), 50)]
  }

  /** With 2023Q3 missing, the positional YoY of 2024Q2 compares against 2023Q1,
      five quarters back: +400%. */
  lemma PositionalYoyCrossesGap()
    ensures GrowthTable(QuarterMissing(), 4)[4].change == Value(400.0)
    ensures Ordinal(QuarterMissing()[4].period) - Ordinal(QuarterMissing()[0].period) == 5
  {
  }

  /** The same quarter one year before 2024Q2 is 2023Q2, holding 20: +150%. */
  lemma CalendarYoyOverGap()
    ensures CalendarLag.CalendarGrowthTable(QuarterMissing(), 4)[4].change == Value(150.0)
  {
    OrdinalInjective(FromOrdinal(Ordinal(Period(2024, 2)) - 4), Period(2023, 2));
    SecondQuarterFound();
    assert CalendarLag.CalendarChange(QuarterMissing(), 4, 4) == PctChange(20, 50);
  }

  /** 2023Q2 is the second cell of the group with the missing quarter. */
  lemma SecondQuarterFound()
    ensures CalendarLag.FindCell(QuarterMissing(), "CAR", Period(2023, 2)) == CalendarLag.Found(1)
  {
    var cells := QuarterMissing();
    assert CalendarLag.FindCell(cells[1..], "CAR", Period(2023, 2)) == CalendarLag.Found(0);
  }

  /** So on a group with a missing quarter the two readings of "year over year" differ. */
  lemma YoyGapDiscrepancy()
    ensures GrowthTable(QuarterMissing(), 4)[4].change != CalendarLag.CalendarGrowthTable(QuarterMissing(), 4)[4].change
  {
    PositionalYoyCrossesGap();
    CalendarYoyOverGap();
  }
}
