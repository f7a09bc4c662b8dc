/** The grouped-sum step `groupby(group_cols + ["period"], as_index=False)[value].sum()`.
    With the grouping's default sorting, its output holds one cell per distinct
    (group key, period) pair, ordered by key and then by period. */
module Aggregation {
  import opened Periods
  import opened Rows
  import Lexical

  /** One row of a grouped table: a (group key, period) cell and its summed registrations. */
  datatype Cell = Cell(key: string, period: Period, total: nat)

  /** Output order of the grouping: by key, then chronologically. Totals play no part. */
  predicate CellLess(a: Cell, b: Cell)
  {
    Lexical.Less(a.key, b.key) || (a.key == b.key && Before(a.period, b.period))
  }

  /** Cells in grouping order with no (key, period) pair twice. */
  predicate StrictlySorted(s: seq<Cell>)
  {
    forall i, j :: 0 <= i < j < |s| ==> CellLess(s[i], s[j])
  }

  /** `CellLess` is a strict order, total on (key, period) pairs. */
  lemma CellOrder(a: Cell, b: Cell, c: Cell)
    ensures !CellLess(a, a)
    ensures CellLess(a, b) && CellLess(b, c) ==> CellLess(a, c)
    ensures (a.key == b.key && a.period == b.period) || CellLess(a, b) || CellLess(b, a)
  {
    Lexical.LessIrreflexive(a.key);
    Lexical.LessTotal(a.key, b.key);
    if CellLess(a, b) && CellLess(b, c) && Lexical.Less(a.key, b.key) && Lexical.Less(b.key, c.key) {
      Lexical.LessTransitive(a.key, b.key, c.key);
    }
  }

  /** Two cells in grouping order are never the same (key, period) pair. */
  lemma CellLessDistinct(a: Cell, b: Cell)
    requires CellLess(a, b)
    ensures a.key != b.key || a.period != b.period
  {
    Lexical.LessIrreflexive(a.key);
  }

  /** Sum of the totals of the cells at (k, p). */
  function TotalAt(cells: seq<Cell>, k: string, p: Period): nat
  {
    if cells == [] then 0
    else (if cells[0].key == k && cells[0].period == p then cells[0].total else 0) + TotalAt(cells[1..], k, p)
  }

  /** Some cell sits at (k, p). */
  predicate Has(cells: seq<Cell>, k: string, p: Period)
  {
    exists c :: c in cells && c.key == k && c.period == p
  }

  /** Sum of all totals. */
  function SumCells(cells: seq<Cell>): nat
  {
    if cells == [] then 0 else cells[0].total + SumCells(cells[1..])
  }

  /** Sum of the totals of the cells with key `k`. */
  function KeyCellSum(cells: seq<Cell>, k: string): nat
  {
    if cells == [] then 0 else (if cells[0].key == k then cells[0].total else 0) + KeyCellSum(cells[1..], k)
  }

  /** Adds `v` registrations to cell (k, p), creating the cell at its place in
      grouping order when it is not there yet. */
  function Insert(cells: seq<Cell>, k: string, p: Period, v: nat): (r: seq<Cell>)
    ensures forall c :: c in r ==> c in cells || (c.key == k && c.period == p)
  {
    if cells == [] then [Cell(k, p, v)]
    else if cells[0].key == k && cells[0].period == p then [Cell(k, p, cells[0].total + v)] + cells[1..]
    else if CellLess(Cell(k, p, v), cells[0]) then [Cell(k, p, v)] + cells
    else [cells[0]] + Insert(cells[1..], k, p, v)
  }

  /** Inserting keeps the grouping order. */
  lemma {:induction false} InsertSorted(cells: seq<Cell>, k: string, p: Period, v: nat)
    requires StrictlySorted(cells)
    ensures StrictlySorted(Insert(cells, k, p, v))
    decreases |cells|
  {
    var n := Cell(k, p, v);
    if cells == [] {
    } else if cells[0].key == k && cells[0].period == p {
    } else if CellLess(n, cells[0]) {
      forall j | 0 < j < |cells| ensures CellLess(n, cells[j]) {
        CellOrder(n, cells[0], cells[j]);
      }
    } else {
      InsertSorted(cells[1..], k, p, v);
      var rest := Insert(cells[1..], k, p, v);
      CellOrder(n, cells[0], n);
      forall j | 0 <= j < |rest| ensures CellLess(cells[0], rest[j]) {
        assert rest[j] in rest;
      }
    }
  }

  /** Inserting adds `v` to cell (k, p) and leaves every other cell's total alone. */
  lemma {:induction false} InsertTotals(cells: seq<Cell>, k: string, p: Period, v: nat, k2: string, p2: Period)
    ensures TotalAt(Insert(cells, k, p, v), k2, p2) == TotalAt(cells, k2, p2) + (if k2 == k && p2 == p then v else 0)
    ensures Has(Insert(cells, k, p, v), k2, p2) <==> Has(cells, k2, p2) || (k2 == k && p2 == p)
    ensures SumCells(Insert(cells, k, p, v)) == SumCells(cells) + v
    ensures KeyCellSum(Insert(cells, k, p, v), k2) == KeyCellSum(cells, k2) + (if k2 == k then v else 0)
    decreases |cells|
  {
    var n := Cell(k, p, v);
    var r := Insert(cells, k, p, v);
    if cells == [] {
      assert r == [n];
      assert r[1..] == [];
    } else if cells[0].key == k && cells[0].period == p {
      assert r[1..] == cells[1..];
      assert Has(cells, k, p) by { assert cells[0] in cells; }
      if Has(cells, k2, p2) {
        var c :| c in cells && c.key == k2 && c.period == p2;
        assert c == cells[0] || c in cells[1..];
      }
    } else if CellLess(n, cells[0]) {
      assert r[1..] == cells;
    } else {
      InsertTotals(cells[1..], k, p, v, k2, p2);
      assert r[1..] == Insert(cells[1..], k, p, v);
      if Has(cells, k2, p2) {
        var c :| c in cells && c.key == k2 && c.period == p2;
        assert c == cells[0] || c in cells[1..];
      }
      if Has(r, k2, p2) {
        var c :| c in r && c.key == k2 && c.period == p2;
        assert c == r[0] || c in r[1..];
      }
    }
  }

  /** The cells `groupby(...).sum()` produces from a table, in grouping order. */
  function Aggregate(t: Table, g: GroupCols): (r: seq<Cell>)
    ensures StrictlySorted(r)
  {
    if t == [] then []
    else
      var rest := Aggregate(t[1..], g);
      InsertSorted(rest, Key(t[0], g), t[0].period, t[0].registrations);
      Insert(rest, Key(t[0], g), t[0].period, t[0].registrations)
  }

  /** Cell by cell, the aggregate holds the sums of the table's rows, and a cell
      exists exactly where some row falls. */
  lemma {:induction false} AggregateTotals(t: Table, g: GroupCols, k: string, p: Period)
    ensures TotalAt(Aggregate(t, g), k, p) == RowSum(t, g, k, p)
    ensures Has(Aggregate(t, g), k, p) <==> Present(t, g, k, p)
    decreases |t|
  {
    if t != [] {
      AggregateTotals(t[1..], g, k, p);
      InsertTotals(Aggregate(t[1..], g), Key(t[0], g), t[0].period, t[0].registrations, k, p);
      if Present(t, g, k, p) {
        var r :| r in t && Key(r, g) == k && r.period == p;
        assert r == t[0] || r in t[1..];
      }
      if Present(t[1..], g, k, p) {
        var r :| r in t[1..] && Key(r, g) == k && r.period == p;
        assert r in t;
      }
    }
  }

  /** When no cell sits at (k, p), the total there is 0. */
  lemma {:induction false} TotalAtAbsent(cells: seq<Cell>, k: string, p: Period)
    requires !Has(cells, k, p)
    ensures TotalAt(cells, k, p) == 0
    decreases |cells|
  {
    if cells != [] {
      assert cells[0] in cells;
      assert !Has(cells[1..], k, p) by {
        forall c | c in cells[1..] ensures !(c.key == k && c.period == p) {
          assert c in cells;
        }
      }
      TotalAtAbsent(cells[1..], k, p);
    }
  }

  /** In sorted cells, the sum at a cell's own (key, period) is that cell's total alone. */
  lemma {:induction false} SortedTotalAt(cells: seq<Cell>, i: nat)
    requires StrictlySorted(cells) && i < |cells|
    ensures TotalAt(cells, cells[i].key, cells[i].period) == cells[i].total
    decreases |cells|
  {
    var k, p := cells[i].key, cells[i].period;
    if i == 0 {
      forall c | c in cells[1..] ensures !(c.key == k && c.period == p) {
        var j :| 0 <= j < |cells[1..]| && cells[1..][j] == c;
        CellLessDistinct(cells[0], cells[j + 1]);
      }
      TotalAtAbsent(cells[1..], k, p);
    } else {
      CellLessDistinct(cells[0], cells[i]);
      SortedTotalAt(cells[1..], i - 1);
      assert cells[1..][i - 1] == cells[i];
    }
  }

  /** What the grouped-sum step produces: one cell per distinct (key, period)
      pair present in the table, none for pairs absent from it, each holding the
      sum of registrations over the rows in that cell, in grouping order. */
  lemma AggregateSpec(t: Table, g: GroupCols)
    ensures StrictlySorted(Aggregate(t, g))
    ensures forall i :: 0 <= i < |Aggregate(t, g)| ==>
      Present(t, g, Aggregate(t, g)[i].key, Aggregate(t, g)[i].period) &&
      Aggregate(t, g)[i].total == RowSum(t, g, Aggregate(t, g)[i].key, Aggregate(t, g)[i].period)
    ensures forall r :: r in t ==>
      exists i :: 0 <= i < |Aggregate(t, g)| && Aggregate(t, g)[i].key == Key(r, g) && Aggregate(t, g)[i].period == r.period
  {
    var a := Aggregate(t, g);
    forall i | 0 <= i < |a|
      ensures Present(t, g, a[i].key, a[i].period) && a[i].total == RowSum(t, g, a[i].key, a[i].period)
    {
      AggregateTotals(t, g, a[i].key, a[i].period);
      assert a[i] in a;
      SortedTotalAt(a, i);
    }
    forall r | r in t
      ensures exists i :: 0 <= i < |a| && a[i].key == Key(r, g) && a[i].period == r.period
    {
      AggregateTotals(t, g, Key(r, g), r.period);
      var c :| c in a && c.key == Key(r, g) && c.period == r.period;
      var i :| 0 <= i < |a| && a[i] == c;
    }
  }

  /** Membership in the aggregate, stated on the rows alone. */
  lemma AggregateMembers(t: Table, g: GroupCols, c: Cell)
    ensures c in Aggregate(t, g) <==> Present(t, g, c.key, c.period) && c.total == RowSum(t, g, c.key, c.period)
  {
    var a := Aggregate(t, g);
    AggregateSpec(t, g);
    if Present(t, g, c.key, c.period) {
      var r :| r in t && Key(r, g) == c.key && r.period == c.period;
      var i :| 0 <= i < |a| && a[i].key == Key(r, g) && a[i].period == r.period;
      if c.total == RowSum(t, g, c.key, c.period) {
        assert a[i] == c;
      }
    }
  }

  /** The first cell of a non-empty table is one of its cells. */
  lemma HeadIsMember(s: seq<Cell>)
    requires s != []
    ensures s[0] in s
  {
  }

  /** Two tables in grouping order with the same cells are the same table. */
  lemma {:induction false} SortedUnique(a: seq<Cell>, b: seq<Cell>)
    requires StrictlySorted(a) && StrictlySorted(b)
    requires forall c :: c in a <==> c in b
    ensures a == b
    decreases |a|
  {
    if a == [] || b == [] {
      if a != [] {
        HeadIsMember(a);
        assert false;
      }
      if b != [] {
        HeadIsMember(b);
        assert false;
      }
    } else {
      assert a[0] in b && b[0] in a;
      var j :| 0 <= j < |b| && b[j] == a[0];
      var i :| 0 <= i < |a| && a[i] == b[0];
      if j != 0 {
        CellOrder(b[0], b[j], b[j]);
        if i == 0 {
          assert false;
        }
        CellOrder(a[0], b[0], a[0]);
        assert false;
      }
      forall c ensures c in a[1..] <==> c in b[1..] {
        if c in a[1..] {
          var m :| 0 <= m < |a[1..]| && a[1..][m] == c;
          CellOrder(a[0], a[m + 1], a[m + 1]);
          assert c in b && c != b[0];
          var n :| 0 <= n < |b| && b[n] == c;
          assert c == b[1..][n - 1];
        }
        if c in b[1..] {
          var m :| 0 <= m < |b[1..]| && b[1..][m] == c;
          CellOrder(b[0], b[m + 1], b[m + 1]);
          assert c in a && c != a[0];
          var n :| 0 <= n < |a| && a[n] == c;
          assert c == a[1..][n - 1];
        }
      }
      SortedUnique(a[1..], b[1..]);
      assert a == [a[0]] + a[1..];
      assert b == [b[0]] + b[1..];
    }
  }

  /** The grouped table does not depend on the order of the input rows, so the
      sort that precedes the grouping (and its instability) cannot be observed. */
  lemma AggregateOrderIndependent(t1: Table, t2: Table, g: GroupCols)
    requires multiset(t1) == multiset(t2)
    ensures Aggregate(t1, g) == Aggregate(t2, g)
  {
    forall c ensures c in Aggregate(t1, g) <==> c in Aggregate(t2, g) {
      AggregateMembers(t1, g, c);
      AggregateMembers(t2, g, c);
      RowSumPermutation(t1, t2, g, c.key, c.period);
      if Present(t1, g, c.key, c.period) {
        var r :| r in t1 && Key(r, g) == c.key && r.period == c.period;
        assert r in multiset(t2);
      }
      if Present(t2, g, c.key, c.period) {
        var r :| r in t2 && Key(r, g) == c.key && r.period == c.period;
        assert r in multiset(t1);
      }
    }
    SortedUnique(Aggregate(t1, g), Aggregate(t2, g));
  }

  /** Grouping neither loses nor invents registrations: the grand total is kept. */
  lemma {:induction false} AggregateGrandTotal(t: Table, g: GroupCols)
    ensures SumCells(Aggregate(t, g)) == Total(t)
    decreases |t|
  {
    if t != [] {
      AggregateGrandTotal(t[1..], g);
      InsertTotals(Aggregate(t[1..], g), Key(t[0], g), t[0].period, t[0].registrations, "", t[0].period);
    }
  }

  /** Summing one group's cells over all periods gives that group's raw total. */
  lemma {:induction false} AggregateKeyTotal(t: Table, g: GroupCols, k: string)
    ensures KeyCellSum(Aggregate(t, g), k) == KeyTotal(t, g, k)
    decreases |t|
  {
    if t != [] {
      AggregateKeyTotal(t[1..], g, k);
      InsertTotals(Aggregate(t[1..], g), Key(t[0], g), t[0].period, t[0].registrations, k, t[0].period);
    }
  }
}
