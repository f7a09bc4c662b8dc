/** `_ensure_sorted`: the rows ordered by period before they are grouped. */
module PeriodSort {
  import opened Periods
  import opened Rows

  /** Rows in chronological order (equal periods in any order). */
  predicate PeriodSorted(t: Table)
  {
    forall i, j :: 0 <= i < j < |t| ==> AtOrBefore(t[i].period, t[j].period)
  }

  /** Puts `r` in front of the first row of `t` that is not earlier than it. */
  function InsertByPeriod(r: Row, t: Table): (s: Table)
    ensures multiset(s) == multiset(t) + multiset{r}
    ensures forall x :: x in s ==> x == r || x in t
  {
    if t == [] then [r]
    else if !Before(t[0].period, r.period) then [r] + t
    else
      assert t == [t[0]] + t[1..];
      [t[0]] + InsertByPeriod(r, t[1..])
  }

  /** Inserting into a chronologically sorted table keeps it sorted. */
  lemma {:induction false} InsertByPeriodSorted(r: Row, t: Table)
    requires PeriodSorted(t)
    ensures PeriodSorted(InsertByPeriod(r, t))
    decreases |t|
  {
    if t == [] {
    } else if !Before(t[0].period, r.period) {
      forall j | 0 < j < |t| ensures AtOrBefore(r.period, t[j].period) {
        BeforeStrictTotalOrder(r.period, t[0].period, t[j].period);
      }
    } else {
      InsertByPeriodSorted(r, t[1..]);
      var rest := InsertByPeriod(r, t[1..]);
      forall j | 0 <= j < |rest| ensures AtOrBefore(t[0].period, rest[j].period) {
        assert rest[j] in rest;
        if rest[j] != r {
          var m :| 0 <= m < |t[1..]| && t[1..][m] == rest[j];
          assert t[m + 1] == rest[j];
        }
      }
    }
  }

  /** The sorted table: a chronological rearrangement of the input rows. */
  function EnsureSorted(t: Table): (s: Table)
    ensures PeriodSorted(s)
    ensures multiset(s) == multiset(t)
  {
    if t == [] then []
    else
      var rest := EnsureSorted(t[1..]);
      InsertByPeriodSorted(t[0], rest);
      assert t == [t[0]] + t[1..];
      InsertByPeriod(t[0], rest)
  }
}
