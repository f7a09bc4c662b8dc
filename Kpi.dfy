/** `kpi_latest_delta`: the latest quarter's total over all groups, its change
    against the previous quarter present in the table, and that change in percent. */
module Kpi {
  import opened Periods
  import opened Rows
  import opened Aggregation
  import opened Growth
  import Lexical

  /** The triple `(latest_value, delta_vs_prev, pct_change)`. */
  datatype LatestDelta = LatestDelta(latest: int, delta: int, pct: Percent)

  /** Totals per period, sorted by period; then the last two entries compared. */
  function KpiLatestDelta(t: Table): (r: LatestDelta)
    ensures r.pct != Missing
    ensures t == [] ==> r == LatestDelta(0, 0, Value(0.0))
  {
    var s := Aggregate(t, PeriodOnly);
    if |s| < 2 then LatestDelta(if |s| == 1 then s[0].total else 0, 0, Value(0.0))
    else
      var latest := s[|s| - 1].total;
      var prev := s[|s| - 2].total;
      LatestDelta(latest, latest - prev, PctChange(prev, latest))
  }

  /** Registrations of all rows in period `p`, across every group: 0 for a period
      without rows, everything when all rows are in `p`, never more than the table. */
  function PeriodTotal(t: Table, p: Period): (r: nat)
    ensures r <= Total(t)
    ensures !HasPeriod(t, p) ==> r == 0
    ensures (forall x :: x in t ==> x.period == p) ==> r == Total(t)
  {
    PeriodSumFacts(t, p);
    RowSum(t, PeriodOnly, "", p)
  }

  /** The facts `PeriodTotal` promises, by induction over the rows. */
  lemma {:induction false} PeriodSumFacts(t: Table, p: Period)
    ensures RowSum(t, PeriodOnly, "", p) <= Total(t)
    ensures !HasPeriod(t, p) ==> RowSum(t, PeriodOnly, "", p) == 0
    ensures (forall x :: x in t ==> x.period == p) ==> RowSum(t, PeriodOnly, "", p) == Total(t)
    decreases |t|
  {
    if t != [] {
      PeriodSumFacts(t[1..], p);
      assert forall x :: x in t[1..] ==> x in t;
      assert t[0] in t;
    }
  }

  /** Some row of `t` is in period `p`. */
  predicate HasPeriod(t: Table, p: Period)
  {
    exists r :: r in t && r.period == p
  }

  /** Every cell of the per-period series is a period of some row, with key "". */
  lemma PeriodCells(t: Table, i: nat)
    requires i < |Aggregate(t, PeriodOnly)|
    ensures Aggregate(t, PeriodOnly)[i].key == ""
    ensures HasPeriod(t, Aggregate(t, PeriodOnly)[i].period)
    ensures Aggregate(t, PeriodOnly)[i].total == PeriodTotal(t, Aggregate(t, PeriodOnly)[i].period)
  {
    AggregateSpec(t, PeriodOnly);
  }

  /** With a single period in the table the result is that period's total, no
      change and zero percent. */
  lemma KpiSinglePeriod(t: Table, p: Period)
    requires t != []
    requires forall r :: r in t ==> r.period == p
    ensures KpiLatestDelta(t) == LatestDelta(PeriodTotal(t, p), 0, Value(0.0))
  {
    var s := Aggregate(t, PeriodOnly);
    AggregateSpec(t, PeriodOnly);
    assert t[0] in t;
    assert |s| > 0;
    PeriodCells(t, 0);
    if |s| >= 2 {
      PeriodCells(t, 1);
      CellLessDistinct(s[0], s[1]);
      assert false;
    }
  }

  /** Every period of the table has its cell in the per-period series. */
  lemma PeriodHasCell(t: Table, p: Period) returns (i: nat)
    requires HasPeriod(t, p)
    ensures i < |Aggregate(t, PeriodOnly)| && Aggregate(t, PeriodOnly)[i].period == p
  {
    AggregateSpec(t, PeriodOnly);
    var r :| r in t && r.period == p;
    i :| 0 <= i < |Aggregate(t, PeriodOnly)| && Aggregate(t, PeriodOnly)[i].key == Key(r, PeriodOnly)
         && Aggregate(t, PeriodOnly)[i].period == p;
  }

  /** The per-period series: one cell per period of the table, in chronological order. */
  lemma PeriodSeries(t: Table)
    ensures forall i :: 0 <= i < |Aggregate(t, PeriodOnly)| ==>
      HasPeriod(t, Aggregate(t, PeriodOnly)[i].period) &&
      Aggregate(t, PeriodOnly)[i].total == PeriodTotal(t, Aggregate(t, PeriodOnly)[i].period)
    ensures forall i, j :: 0 <= i < j < |Aggregate(t, PeriodOnly)| ==>
      Before(Aggregate(t, PeriodOnly)[i].period, Aggregate(t, PeriodOnly)[j].period)
  {
    var s := Aggregate(t, PeriodOnly);
    forall i | 0 <= i < |s| ensures HasPeriod(t, s[i].period) && s[i].total == PeriodTotal(t, s[i].period) {
      PeriodCells(t, i);
    }
    forall i, j | 0 <= i < j < |s| ensures Before(s[i].period, s[j].period) {
      PeriodCells(t, i);
      PeriodCells(t, j);
      assert CellLess(s[i], s[j]);
      Lexical.LessIrreflexive("");
    }
  }

  /** In a chronological series of the table's periods, the last entry is the latest period. */
  lemma LastIsLatest(t: Table, s: seq<Cell>, il: nat, last: Period)
    requires forall i :: 0 <= i < |s| ==> HasPeriod(t, s[i].period)
    requires forall i, j :: 0 <= i < j < |s| ==> Before(s[i].period, s[j].period)
    requires il < |s| && s[il].period == last
    requires forall r :: r in t ==> AtOrBefore(r.period, last)
    ensures s[|s| - 1].period == last
  {
    var n := |s|;
    if il < n - 1 {
      assert HasPeriod(t, s[n - 1].period);
      BeforeStrictTotalOrder(last, s[n - 1].period, last);
      assert false;
    }
  }

  /** In such a series, the entry before the last is the latest period preceding `last`. */
  lemma SecondLastIsPrev(t: Table, s: seq<Cell>, ip: nat, last: Period, prev: Period)
    requires forall i :: 0 <= i < |s| ==> HasPeriod(t, s[i].period)
    requires forall i, j :: 0 <= i < j < |s| ==> Before(s[i].period, s[j].period)
    requires ip < |s| && s[ip].period == prev && Before(prev, last)
    requires |s| > 0 && s[|s| - 1].period == last
    requires forall r :: r in t && Before(r.period, last) ==> AtOrBefore(r.period, prev)
    ensures |s| > 1 && s[|s| - 2].period == prev
  {
    var n := |s|;
    assert ip != n - 1;
    var q := s[n - 2].period;
    assert HasPeriod(t, q);
    assert Before(q, last);
    if ip < n - 2 {
      assert Before(prev, q);
      BeforeStrictTotalOrder(prev, q, prev);
      assert false;
    }
  }

  /** With two or more periods: `latest` is the total of the last period present,
      `delta` its difference from the total of the period just before it among
      those present (not necessarily the calendar-adjacent quarter), and the
      percentage is `delta / prev * 100`, or infinite when `prev` is 0. */
  lemma KpiLatestDeltaSpec(t: Table, last: Period, prev: Period)
    requires HasPeriod(t, last) && HasPeriod(t, prev) && Before(prev, last)
    requires forall r :: r in t ==> AtOrBefore(r.period, last)
    requires forall r :: r in t && Before(r.period, last) ==> AtOrBefore(r.period, prev)
    ensures KpiLatestDelta(t) == LatestDelta(PeriodTotal(t, last), PeriodTotal(t, last) - PeriodTotal(t, prev),
                                            PctChange(PeriodTotal(t, prev), PeriodTotal(t, last)))
  {
    var s := Aggregate(t, PeriodOnly);
    PeriodSeries(t);
    var il := PeriodHasCell(t, last);
    var ip := PeriodHasCell(t, prev);
    LastIsLatest(t, s, il, last);
    SecondLastIsPrev(t, s, ip, last, prev);
  }
}
