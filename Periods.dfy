/** Quarter-granularity periods: the time axis of every table.
    A period is what the loader derives from a "2024Q1"-style date column. */
module Periods {

  /** Quarter of the year, 1 to 4. */
  type QuarterOfYear = q: int | 1 <= q <= 4 witness 1

  /** One calendar quarter. Two periods are equal exactly when year and quarter agree. */
  datatype Period = Period(year: int, quarter: QuarterOfYear)

  /** Chronological strict order of quarters (the `<` the analytics compare periods with). */
  predicate Before(a: Period, b: Period)
  {
    a.year < b.year || (a.year == b.year && a.quarter < b.quarter)
  }

  /** Chronological non-strict order (`<=` on periods). */
  predicate AtOrBefore(a: Period, b: Period)
  {
    a == b || Before(a, b)
  }

  /** Number of quarters since quarter 1 of year 0: consecutive quarters have consecutive ordinals. */
  function Ordinal(p: Period): int
  {
    p.year * 4 + p.quarter - 1
  }

  /** The period with a given ordinal; "n quarters earlier" is `FromOrdinal(Ordinal(p) - n)`. */
  function FromOrdinal(n: int): (p: Period)
    ensures Ordinal(p) == n
    ensures p.quarter == n % 4 + 1
  {
    Period(n / 4, n % 4 + 1)
  }

  /** Ordinals identify periods, so `FromOrdinal` inverts `Ordinal`. */
  lemma OrdinalRoundTrip(p: Period)
    ensures FromOrdinal(Ordinal(p)) == p
  {
    var q := FromOrdinal(Ordinal(p));
    OrdinalInjective(p, q);
  }

  /** Two periods with the same ordinal are the same period. */
  lemma OrdinalInjective(a: Period, b: Period)
    requires Ordinal(a) == Ordinal(b)
    ensures a == b
  {
    BeforeIsOrdinalOrder(a, b);
    BeforeIsOrdinalOrder(b, a);
  }

  /** The chronological order is the order of ordinals. */
  lemma BeforeIsOrdinalOrder(a: Period, b: Period)
    ensures Before(a, b) <==> Ordinal(a) < Ordinal(b)
    ensures AtOrBefore(a, b) <==> Ordinal(a) <= Ordinal(b)
  {
    if a.year < b.year {
      assert a.year * 4 + 4 <= b.year * 4;
    } else if b.year < a.year {
      assert b.year * 4 + 4 <= a.year * 4;
    }
  }

  /** `Before` is a strict total order: irreflexive, transitive and total. */
  lemma BeforeStrictTotalOrder(a: Period, b: Period, c: Period)
    ensures !Before(a, a)
    ensures Before(a, b) && Before(b, c) ==> Before(a, c)
    ensures a == b || Before(a, b) || Before(b, a)
    ensures !(Before(a, b) && Before(b, a))
  {
  }
}
