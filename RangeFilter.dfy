/** `filter_range`: the rows whose period lies in an inclusive range of quarters. */
module RangeFilter {
  import opened Periods
  import opened Rows

  /** `start <= p <= end`, both bounds included: on quarter ordinals, the quarter
      just before `start` and the one just after `end` fall outside. */
  predicate InRange(p: Period, start: Period, end: Period)
    ensures InRange(p, start, end) <==> Ordinal(start) <= Ordinal(p) <= Ordinal(end)
  {
    BeforeIsOrdinalOrder(start, p);
    BeforeIsOrdinalOrder(p, end);
    AtOrBefore(start, p) && AtOrBefore(p, end)
  }

  /** The rows of `t` whose period lies in `[start, end]`, in their original order and unchanged. */
  function FilterRange(t: Table, start: Period, end: Period): (r: Table)
    ensures |r| <= |t|
    ensures forall x :: x in r <==> x in t && InRange(x.period, start, end)
  {
    if t == [] then []
    else (if InRange(t[0].period, start, end) then [t[0]] else []) + FilterRange(t[1..], start, end)
  }

  /** Filtering distributes over concatenation, so relative row order is preserved. */
  lemma {:induction false} FilterRangeConcat(a: Table, b: Table, start: Period, end: Period)
    ensures FilterRange(a + b, start, end) == FilterRange(a, start, end) + FilterRange(b, start, end)
    decreases |a|
  {
    if a == [] {
      assert a + b == b;
    } else {
      assert (a + b)[1..] == a[1..] + b;
      FilterRangeConcat(a[1..], b, start, end);
    }
  }

  /** Every in-range row is kept as many times as it occurs; every other row is dropped. */
  lemma {:induction false} FilterRangeCounts(t: Table, start: Period, end: Period, x: Row)
    ensures multiset(FilterRange(t, start, end))[x] == if InRange(x.period, start, end) then multiset(t)[x] else 0
    decreases |t|
  {
    if t != [] {
      FilterRangeCounts(t[1..], start, end, x);
      assert t == [t[0]] + t[1..];
    }
  }

  /** Filtering twice with the same bounds is filtering once. */
  lemma {:induction false} FilterRangeIdempotent(t: Table, start: Period, end: Period)
    ensures FilterRange(FilterRange(t, start, end), start, end) == FilterRange(t, start, end)
    decreases |t|
  {
    if t != [] {
      var head := if InRange(t[0].period, start, end) then [t[0]] else [];
      FilterRangeIdempotent(t[1..], start, end);
      FilterRangeConcat(head, FilterRange(t[1..], start, end), start, end);
      if head != [] {
        assert FilterRange(head, start, end) == head by {
          assert head[1..] == [];
        }
      }
    }
  }

  /** A table whose rows all lie in range comes back whole. */
  lemma {:induction false} FilterRangeKeepsAll(t: Table, start: Period, end: Period)
    requires forall i :: 0 <= i < |t| ==> InRange(t[i].period, start, end)
    ensures FilterRange(t, start, end) == t
    decreases |t|
  {
    if t != [] {
      FilterRangeKeepsAll(t[1..], start, end);
      assert t == [t[0]] + t[1..];
    }
  }

  /** With `start` after `end` no period qualifies and the result is empty. */
  lemma FilterRangeEmptyWhenReversed(t: Table, start: Period, end: Period)
    requires Before(end, start)
    ensures FilterRange(t, start, end) == []
  {
    var r := FilterRange(t, start, end);
    if r != [] {
      assert r[0] in r;
      BeforeIsOrdinalOrder(end, start);
      assert false;
    }
  }
}
