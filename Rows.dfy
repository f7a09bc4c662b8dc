/** The registration table the analytics work on, and the grouping columns. */
module Rows {
  import opened Periods

  /** One registration record as the loader delivers it: a period on every row,
      normalised category and manufacturer text, and a non-negative count. */
  datatype Row = Row(period: Period, category: string, manufacturer: string, registrations: nat)

  /** A table is its rows in order. */
  type Table = seq<Row>

  /** The grouping columns a caller passes in front of "period":
      `["category"]`, `["manufacturer"]`, or none at all (grouping by period only). */
  datatype GroupCols = ByCategory | ByManufacturer | PeriodOnly

  /** The group key of a row under a choice of grouping columns. */
  function Key(r: Row, g: GroupCols): string
  {
    match g
    case ByCategory => r.category
    case ByManufacturer => r.manufacturer
    case PeriodOnly => ""
  }

  /** Sum of registrations over a whole table. */
  function Total(t: Table): nat
  {
    if t == [] then 0 else t[0].registrations + Total(t[1..])
  }

  /** What one row adds to the cell (k, p). */
  function Contribution(r: Row, g: GroupCols, k: string, p: Period): nat
  {
    if Key(r, g) == k && r.period == p then r.registrations else 0
  }

  /** Sum of registrations over the rows of `t` that fall in cell (k, p). */
  function RowSum(t: Table, g: GroupCols, k: string, p: Period): nat
  {
    if t == [] then 0 else Contribution(t[0], g, k, p) + RowSum(t[1..], g, k, p)
  }

  /** Sum of registrations over the rows of `t` whose group key is `k`. */
  function KeyTotal(t: Table, g: GroupCols, k: string): nat
  {
    if t == [] then 0 else (if Key(t[0], g) == k then t[0].registrations else 0) + KeyTotal(t[1..], g, k)
  }

  /** Some row of `t` falls in cell (k, p). */
  predicate Present(t: Table, g: GroupCols, k: string, p: Period)
  {
    exists r :: r in t && Key(r, g) == k && r.period == p
  }

  /** Cell sums split over concatenation. */
  lemma {:induction false} RowSumConcat(a: Table, b: Table, g: GroupCols, k: string, p: Period)
    ensures RowSum(a + b, g, k, p) == RowSum(a, g, k, p) + RowSum(b, g, k, p)
    decreases |a|
  {
    if a == [] {
      assert a + b == b;
    } else {
      assert (a + b)[1..] == a[1..] + b;
      RowSumConcat(a[1..], b, g, k, p);
    }
  }

  /** Taking one row out of a table takes its contribution out of every cell sum. */
  lemma RowSumRemove(b: Table, j: nat, g: GroupCols, k: string, p: Period)
    requires j < |b|
    ensures RowSum(b, g, k, p) == Contribution(b[j], g, k, p) + RowSum(b[..j] + b[j + 1..], g, k, p)
  {
    assert b == b[..j] + ([b[j]] + b[j + 1..]);
    RowSumConcat(b[..j], [b[j]] + b[j + 1..], g, k, p);
    RowSumConcat(b[..j], b[j + 1..], g, k, p);
    assert ([b[j]] + b[j + 1..])[1..] == b[j + 1..];
  }

  /** Cell sums depend only on which rows a table holds, not on their order. */
  lemma {:induction false} RowSumPermutation(a: Table, b: Table, g: GroupCols, k: string, p: Period)
    requires multiset(a) == multiset(b)
    ensures RowSum(a, g, k, p) == RowSum(b, g, k, p)
    decreases |a|
  {
    if a == [] {
      assert |b| == |multiset(b)| == 0;
    } else {
      var x := a[0];
      assert x in multiset(b);
      var j :| 0 <= j < |b| && b[j] == x;
      var rest := b[..j] + b[j + 1..];
      MultisetRemove(b, j);
      assert a == [x] + a[1..];
      assert multiset(a[1..]) == multiset(a) - multiset{x};
      RowSumPermutation(a[1..], rest, g, k, p);
      RowSumRemove(b, j, g, k, p);
    }
  }

  /** Removing position j of a sequence removes one occurrence of its element. */
  lemma MultisetRemove(b: Table, j: nat)
    requires j < |b|
    ensures multiset(b[..j] + b[j + 1..]) == multiset(b) - multiset{b[j]}
  {
    assert b == b[..j] + [b[j]] + b[j + 1..];
  }
}
