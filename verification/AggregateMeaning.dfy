/** What the cells of an aggregation's output are, in terms of the input rows alone. */
module AggregateMeaning {
  import opened AggregateSpec
  import opened Conditions

  /** The number an aggregate takes a row's value for; a string counts as zero. */
  predicate Reads(row: Row, col: Col, x: real) {
    && col in row
    && (row[col] == FloatV(x) || (row[col].IntV? && row[col].i as real == x) || (row[col].StrV? && x == 0.0))
  }

  /** `xs` are the numbers of the rows in one column, row by row. */
  ghost predicate Reading(rows: seq<Row>, col: Col, xs: seq<real>) {
    |xs| == |rows| && forall j :: 0 <= j < |rows| ==> Reads(rows[j], col, xs[j])
  }

  function SumOf(xs: seq<real>): real {
    if xs == [] then 0.0 else xs[0] + SumOf(xs[1..])
  }

  lemma {:induction false} SumOfInit(xs: seq<real>, x: real)
    ensures SumOf(xs + [x]) == SumOf(xs) + x
  {
    if xs != [] {
      assert (xs + [x])[1..] == xs[1..] + [x];
      SumOfInit(xs[1..], x);
    }
  }

  lemma {:induction false} SumReads(vs: seq<Value>, xs: seq<real>)
    requires |vs| == |xs| && forall j :: 0 <= j < |vs| ==> Num(vs[j]) == xs[j]
    ensures Sum(vs) == SumOf(xs)
  {
    if vs != [] {
      var n := |vs| - 1;
      SumReads(vs[..n], xs[..n]);
      SumOfInit(xs[..n], xs[n]);
      assert xs[..n] + [xs[n]] == xs;
    }
  }

  /** What a cell is, given the numbers of its group. */
  ghost predicate CellIs(kind: AggType, xs: seq<real>, cell: Value) {
    if kind.AggCount? then cell == IntV(|xs|)
    else
      && cell.FloatV?
      && (xs == [] ==> cell.r == 0.0)
      && match kind
         case AggSum => cell.r == SumOf(xs)
         case AggAvg => cell.r * |xs| as real == SumOf(xs)
         case AggMax => xs != [] ==> cell.r in xs && forall x :: x in xs ==> x <= cell.r
         case AggMin => xs != [] ==> cell.r in xs && forall x :: x in xs ==> cell.r <= x
         case _ => true
  }

  lemma Quotient(s: real, n: real, q: real)
    requires n > 0.0 && q == s / n
    ensures q * n == s
  {
  }

  /** Stated without the fold, for the solver's sake. */
  lemma AverageOf(s: AggState, xs: seq<real>)
    requires s.count == |xs| && s.sum == SumOf(xs)
    ensures CellIs(AggAvg, xs, ComputeValue(s, AggAvg))
  {
    var q := ComputeValue(s, AggAvg).r;
    if xs != [] {
      Quotient(s.sum, s.count as real, q);
    }
  }

  lemma FoldedAverage(vs: seq<Value>, xs: seq<real>)
    requires |vs| == |xs| && forall j :: 0 <= j < |vs| ==> Num(vs[j]) == xs[j]
    ensures CellIs(AggAvg, xs, ComputeValue(Fold(vs), AggAvg))
  {
    FoldMeans(vs);
    SumReads(vs, xs);
    AverageOf(Fold(vs), xs);
  }

  lemma FoldedNumber(vs: seq<Value>, xs: seq<real>, kind: AggType)
    requires |vs| == |xs| && forall j :: 0 <= j < |vs| ==> Num(vs[j]) == xs[j]
    requires kind.AggCount? || kind.AggSum?
    ensures CellIs(kind, xs, ComputeValue(Fold(vs), kind))
  {
    FoldMeans(vs);
    SumReads(vs, xs);
  }

  lemma FoldedBound(vs: seq<Value>, xs: seq<real>, kind: AggType)
    requires |vs| == |xs| && forall j :: 0 <= j < |vs| ==> Num(vs[j]) == xs[j]
    requires kind.AggMax? || kind.AggMin?
    ensures CellIs(kind, xs, ComputeValue(Fold(vs), kind))
  {
    FoldMeans(vs);
    if xs != [] {
      var s := Fold(vs);
      var i, j :| 0 <= i < |vs| && 0 <= j < |vs| && s.minVal == Num(vs[i]) && s.maxVal == Num(vs[j]);
      assert xs[i] in xs && xs[j] in xs;
      forall x | x in xs ensures s.minVal <= x <= s.maxVal {
        var a :| 0 <= a < |xs| && xs[a] == x;
        assert x == Num(vs[a]);
      }
    }
  }

  /** Every aggregate of an output row, over the numbers of its group: COUNT is how many there are, SUM
      their sum, AVG times their number is their sum, MAX and MIN are among them and none is larger or
      smaller; without rows they are zero. */
  lemma CellMeans(g: Grouping, k: seq<Value>, group: seq<Row>, i: nat, xs: seq<real>)
    requires i < |g.aggs| && g.aggs[i].col.Some? && Reading(group, g.aggs[i].col.value, xs)
    ensures |g.RowOf(k, group)| == |k| + |g.aggs| && g.RowOf(k, group)[..|k|] == k
    ensures CellIs(g.aggs[i].kind, xs, g.RowOf(k, group)[|k| + i])
  {
    var vs, col := g.Column(group, i), g.aggs[i].col.value;
    forall j | 0 <= j < |vs| ensures Num(vs[j]) == xs[j] {
      assert Reads(group[j], col, xs[j]);
    }
    if g.aggs[i].kind.AggMax? || g.aggs[i].kind.AggMin? {
      FoldedBound(vs, xs, g.aggs[i].kind);
    } else if g.aggs[i].kind.AggAvg? {
      FoldedAverage(vs, xs);
    } else {
      FoldedNumber(vs, xs, g.aggs[i].kind);
    }
  }

  /** COUNT(*) needs no column. */
  lemma CountMeans(g: Grouping, k: seq<Value>, group: seq<Row>, i: nat)
    requires i < |g.aggs| && g.aggs[i].kind.AggCount?
    ensures g.RowOf(k, group)[|k| + i] == IntV(|group|)
  {
    FoldMeans(g.Column(group, i));
  }

  // ---- the groups ------------------------------------------------------------------------

  /** Row `row` has the values `k` in the GROUP BY columns. */
  ghost predicate HasKey(g: Grouping, row: Row, k: seq<Value>) {
    |k| == |g.groupCols| && forall i :: 0 <= i < |k| ==> g.groupCols[i] in row && row[g.groupCols[i]] == k[i]
  }

  predicate HasColumns(g: Grouping, row: Row) {
    forall i :: 0 <= i < |g.groupCols| ==> g.groupCols[i] in row
  }

  lemma KeyIs(g: Grouping, row: Row, k: seq<Value>)
    requires HasColumns(g, row)
    ensures g.Key(row) == k <==> HasKey(g, row, k)
  {
    if HasKey(g, row, k) { assert g.Key(row) == k; }
  }

  /** A group has each row with its key as often as the input has it, and no other row. */
  lemma {:induction false} GroupIs(g: Grouping, rows: seq<Row>, k: seq<Value>, row: Row)
    requires forall j :: 0 <= j < |rows| ==> HasColumns(g, rows[j])
    ensures multiset(g.Group(rows, k))[row] == if HasColumns(g, row) && HasKey(g, row, k) then multiset(rows)[row] else 0
  {
    if rows != [] {
      var n := |rows| - 1;
      GroupIs(g, rows[..n], k, row);
      KeyIs(g, rows[n], k);
      assert rows == rows[..n] + [rows[n]];
    }
  }

  lemma RowIsGroup(g: Grouping, rows: seq<Row>, out: seq<seq<Value>>, x: nat)
    requires g.IsGrouped(rows, out) && x < |out|
    ensures |out[x]| == |g.groupCols| + |g.aggs|
    ensures var k := out[x][..|g.groupCols|]; out[x] == g.RowOf(k, g.Group(rows, k)) && g.Group(rows, k) != []
  {
    var r := out[x];
    assert r in out;
    var k :| g.Occurs(rows, k) && r == g.RowOf(k, g.Group(rows, k)) && g.CheckHaving(r);
    assert |k| == |g.groupCols| && r[..|k|] == k;
    g.GroupMembers(rows, k);
  }

  /** The cells of every row of a grouped output. */
  lemma OutputMeans(g: Grouping, rows: seq<Row>, out: seq<seq<Value>>, x: nat, i: nat, xs: seq<real>)
    requires g.IsGrouped(rows, out) && x < |out| && i < |g.aggs| && g.aggs[i].col.Some?
    requires Reading(g.Group(rows, out[x][..|g.groupCols|]), g.aggs[i].col.value, xs)
    ensures |out[x]| == |g.groupCols| + |g.aggs|
    ensures xs != [] && CellIs(g.aggs[i].kind, xs, out[x][|g.groupCols| + i])
  {
    var k := out[x][..|g.groupCols|];
    RowIsGroup(g, rows, out, x);
    CellOf(g, k, g.Group(rows, k), i, xs, out[x], |g.groupCols|);
  }

  lemma CellOf(g: Grouping, k: seq<Value>, group: seq<Row>, i: nat, xs: seq<real>, row: seq<Value>, n: nat)
    requires i < |g.aggs| && g.aggs[i].col.Some? && Reading(group, g.aggs[i].col.value, xs) && group != []
    requires row == g.RowOf(k, group) && n == |k|
    ensures xs != [] && CellIs(g.aggs[i].kind, xs, row[n + i])
  {
    CellMeans(g, k, group, i, xs);
  }
}
