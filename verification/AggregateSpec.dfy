/** What grouping and aggregating mean. */
module AggregateSpec {
  import opened Conditions

  datatype AggType = AggCount | AggSum | AggAvg | AggMax | AggMin

  /** An aggregate of the query; COUNT(*) has no column. */
  datatype Agg = Agg(kind: AggType, col: Option<Col>, name: string)

  datatype AggState = AggState(count: nat, sum: real, maxVal: real, minVal: real, hasValue: bool)

  const EMPTY: AggState := AggState(0, 0.0, 0.0, 0.0, false)

  /** The number an aggregate works with; strings count as zero. */
  function Num(v: Value): real {
    match v
    case IntV(i) => i as real
    case FloatV(r) => r
    case StrV(_) => 0.0
  }

  function Accumulate(s: AggState, v: Value): AggState {
    var x := Num(v);
    AggState(s.count + 1, s.sum + x,
             if !s.hasValue || x > s.maxVal then x else s.maxVal,
             if !s.hasValue || x < s.minVal then x else s.minVal, true)
  }

  /** All values one after the other. */
  function Fold(vs: seq<Value>): AggState {
    if vs == [] then EMPTY else Accumulate(Fold(vs[..|vs| - 1]), vs[|vs| - 1])
  }

  function Sum(vs: seq<Value>): real {
    if vs == [] then 0.0 else Sum(vs[..|vs| - 1]) + Num(vs[|vs| - 1])
  }

  /** The state after folding: how many, their sum, and bounds that are reached. */
  lemma {:induction false} FoldMeans(vs: seq<Value>)
    ensures var s := Fold(vs);
            && s.count == |vs| && s.sum == Sum(vs) && (s.hasValue <==> vs != [])
            && (forall i :: 0 <= i < |vs| ==> s.minVal <= Num(vs[i]) <= s.maxVal)
            && (vs != [] ==> exists i, j :: 0 <= i < |vs| && 0 <= j < |vs| && s.minVal == Num(vs[i]) && s.maxVal == Num(vs[j]))
  {
    if vs != [] {
      var n := |vs| - 1;
      var init := vs[..n];
      FoldMeans(init);
      var s, t := Fold(init), Fold(vs);
      if init == [] {
        assert t.minVal == Num(vs[0]) && t.maxVal == Num(vs[0]);
      } else {
        var i, j :| 0 <= i < n && 0 <= j < n && s.minVal == Num(init[i]) && s.maxVal == Num(init[j]);
        var i', j' := if Num(vs[n]) < s.minVal then n else i, if Num(vs[n]) > s.maxVal then n else j;
        assert t.minVal == Num(vs[i']) && t.maxVal == Num(vs[j']);
      }
    }
  }

  lemma FoldNext(vs: seq<Value>, v: Value)
    ensures Fold(vs + [v]) == Accumulate(Fold(vs), v)
  {
    assert (vs + [v])[..|vs|] == vs;
  }

  /** The value an aggregate shows. */
  function ComputeValue(s: AggState, kind: AggType): Value {
    match kind
    case AggCount => IntV(s.count)
    case AggSum => FloatV(s.sum)
    case AggAvg => FloatV(if s.count > 0 then s.sum / s.count as real else 0.0)
    case AggMax => FloatV(if s.hasValue then s.maxVal else 0.0)
    case AggMin => FloatV(if s.hasValue then s.minVal else 0.0)
  }

  // ---- HAVING ---------------------------------------------------------------------

  /** The constant is converted to the type of the column. */
  function CompareHaving(v: Value, rhs: Value): int {
    match v
    case IntV(a) =>
      var b := if rhs.FloatV? then Truncate(rhs.r) else if rhs.IntV? then rhs.i else 0;
      if a < b then -1 else if a > b then 1 else 0
    case FloatV(a) =>
      var b := if rhs.IntV? then rhs.i as real else if rhs.FloatV? then rhs.r else 0.0;
      if a < b then -1 else if a > b then 1 else 0
    case StrV(a) => if rhs.StrV? then CompareBytes(a, rhs.s) else 0
  }

  function Find(names: seq<string>, name: string): (n: nat)
    ensures n <= |names| && (n < |names| ==> names[n] == name) && forall i :: 0 <= i < n ==> names[i] != name
  {
    if names == [] || names[0] == name then 0 else 1 + Find(names[1..], name)
  }

  /** Names the output has no column for, and comparisons with columns, hold. */
  predicate EvalHaving(cond: Condition, names: seq<string>, row: seq<Value>) {
    var n := Find(names, cond.lhs.name);
    if n >= |names| || n >= |row| then true
    else if cond.op.OpIsNull? then IsNull(row[n])
    else if cond.op.OpIsNotNull? then !IsNull(row[n])
    else if !cond.isRhsVal || !IsComparison(cond.op) then true
    else Holds(cond.op, CompareHaving(row[n], cond.rhsVal))
  }

  // ---- grouping ----------------------------------------------------------------------

  /** A query's GROUP BY columns, aggregates and HAVING conditions. */
  datatype Grouping = Grouping(groupCols: seq<Col>, aggs: seq<Agg>, having: seq<Condition>) {

    function ValueOf(row: Row, col: Option<Col>): Value {
      if col.Some? && col.value in row then row[col.value] else IntV(0)
    }

    function Key(row: Row): seq<Value> {
      seq(|groupCols|, i requires 0 <= i < |groupCols| => ValueOf(row, Some(groupCols[i])))
    }

    function Names(): seq<string> {
      seq(|groupCols|, i requires 0 <= i < |groupCols| => groupCols[i].name) +
      seq(|aggs|, i requires 0 <= i < |aggs| => aggs[i].name)
    }

    predicate CheckHaving(row: seq<Value>) {
      forall i :: 0 <= i < |having| ==> EvalHaving(having[i], Names(), row)
    }

    /** The rows with key `k`, in their order. */
    function Group(rows: seq<Row>, k: seq<Value>): seq<Row> {
      if rows == [] then []
      else
        var more := Group(rows[..|rows| - 1], k);
        if Key(rows[|rows| - 1]) == k then more + [rows[|rows| - 1]] else more
    }

    function Column(rows: seq<Row>, i: nat): seq<Value>
      requires i < |aggs|
    {
      seq(|rows|, j requires 0 <= j < |rows| => ValueOf(rows[j], aggs[i].col))
    }

    ghost predicate Occurs(rows: seq<Row>, k: seq<Value>) {
      exists j :: 0 <= j < |rows| && Key(rows[j]) == k
    }

    /** The output row of a group: its key, and each aggregate over exactly its rows. */
    function RowOf(k: seq<Value>, group: seq<Row>): seq<Value> {
      k + seq(|aggs|, i requires 0 <= i < |aggs| => ComputeValue(Fold(Column(group, i)), aggs[i].kind))
    }

    /** `out` holds one row for each key that occurs and passes HAVING, and nothing else. */
    ghost predicate IsGrouped(rows: seq<Row>, out: seq<seq<Value>>) {
      && (forall r :: r in out <==> exists k :: Occurs(rows, k) && r == RowOf(k, Group(rows, k)) && CheckHaving(r))
      && (forall i :: 0 <= i < |out| ==> |out[i]| == |groupCols| + |aggs|)
      && (forall i, j :: 0 <= i < j < |out| ==> out[i][..|groupCols|] != out[j][..|groupCols|])
    }

    /** The rows of the groups with the given keys, in their order, that pass HAVING. */
    function Emitted(keys: seq<seq<Value>>, rows: seq<Row>): seq<seq<Value>> {
      if keys == [] then []
      else
        var k := keys[|keys| - 1];
        var row := RowOf(k, Group(rows, k));
        Emitted(keys[..|keys| - 1], rows) + if CheckHaving(row) then [row] else []
    }

    lemma EmittedNext(keys: seq<seq<Value>>, k: seq<Value>, rows: seq<Row>)
      ensures Emitted(keys + [k], rows) ==
              Emitted(keys, rows) + if CheckHaving(RowOf(k, Group(rows, k))) then [RowOf(k, Group(rows, k))] else []
    {
      assert (keys + [k])[..|keys|] == keys;
    }

    ghost predicate IsRowOf(r: seq<Value>, keys: seq<seq<Value>>, rows: seq<Row>) {
      && |r| == |groupCols| + |aggs| && r[..|groupCols|] in keys
      && r == RowOf(r[..|groupCols|], Group(rows, r[..|groupCols|])) && CheckHaving(r)
    }

    /** Each row emitted is that of one of the keys ... */
    lemma {:induction false} EmittedAre(keys: seq<seq<Value>>, rows: seq<Row>, r: seq<Value>)
      requires forall i :: 0 <= i < |keys| ==> |keys[i]| == |groupCols|
      requires r in Emitted(keys, rows)
      ensures IsRowOf(r, keys, rows)
    {
      var init, k := keys[..|keys| - 1], keys[|keys| - 1];
      if r in Emitted(init, rows) {
        EmittedAre(init, rows, r);
        assert forall x :: x in init ==> x in keys;
      } else {
        assert RowOf(k, Group(rows, k))[..|groupCols|] == k;
      }
    }

    /** ... each key's row that passes is emitted ... */
    lemma {:induction false} AllEmitted(keys: seq<seq<Value>>, rows: seq<Row>, k: seq<Value>)
      requires k in keys && CheckHaving(RowOf(k, Group(rows, k)))
      ensures RowOf(k, Group(rows, k)) in Emitted(keys, rows)
    {
      var init := keys[..|keys| - 1];
      assert k in init || k == keys[|keys| - 1];
      if k in init { AllEmitted(init, rows, k); }
    }

    /** ... and no two have the same key. */
    lemma {:induction false} EmittedDistinct(keys: seq<seq<Value>>, rows: seq<Row>)
      requires forall i :: 0 <= i < |keys| ==> |keys[i]| == |groupCols|
      requires forall i, j :: 0 <= i < j < |keys| ==> keys[i] != keys[j]
      ensures forall i :: 0 <= i < |Emitted(keys, rows)| ==> |Emitted(keys, rows)[i]| == |groupCols| + |aggs|
      ensures var out := Emitted(keys, rows);
              forall i, j :: 0 <= i < j < |out| ==> out[i][..|groupCols|] != out[j][..|groupCols|]
    {
      if keys != [] {
        var init, k := keys[..|keys| - 1], keys[|keys| - 1];
        EmittedDistinct(init, rows);
        assert RowOf(k, Group(rows, k))[..|groupCols|] == k;
        var before := Emitted(init, rows);
        forall i | 0 <= i < |before| ensures before[i][..|groupCols|] != k {
          EmittedAre(init, rows, before[i]);
        }
      }
    }

    /** Emitting every key that occurs once is grouping. */
    lemma EmittedIsGrouped(keys: seq<seq<Value>>, rows: seq<Row>)
      requires forall i :: 0 <= i < |keys| ==> |keys[i]| == |groupCols|
      requires forall i, j :: 0 <= i < j < |keys| ==> keys[i] != keys[j]
      requires forall k :: k in keys <==> Occurs(rows, k)
      ensures IsGrouped(rows, Emitted(keys, rows))
    {
      EmittedDistinct(keys, rows);
      var out := Emitted(keys, rows);
      forall r ensures r in out <==> exists k :: Occurs(rows, k) && r == RowOf(k, Group(rows, k)) && CheckHaving(r) {
        if r in out {
          EmittedAre(keys, rows, r);
          assert Occurs(rows, r[..|groupCols|]);
        }
        if k :| Occurs(rows, k) && r == RowOf(k, Group(rows, k)) && CheckHaving(r) { AllEmitted(keys, rows, k); }
      }
    }

    lemma GroupNext(rows: seq<Row>, r: Row, k: seq<Value>)
      ensures Group(rows + [r], k) == if Key(r) == k then Group(rows, k) + [r] else Group(rows, k)
    {
      assert (rows + [r])[..|rows|] == rows;
    }

    lemma ColumnNext(rows: seq<Row>, r: Row, i: nat)
      requires i < |aggs|
      ensures Column(rows + [r], i) == Column(rows, i) + [ValueOf(r, aggs[i].col)]
    {
    }

    lemma {:induction false} GroupMembers(rows: seq<Row>, k: seq<Value>)
      ensures Group(rows, k) != [] <==> Occurs(rows, k)
      ensures forall j :: 0 <= j < |Group(rows, k)| ==> Key(Group(rows, k)[j]) == k
    {
      if rows != [] {
        var n := |rows| - 1;
        GroupMembers(rows[..n], k);
        if j :| 0 <= j < |rows| && Key(rows[j]) == k { assert j == n || rows[..n][j] == rows[j]; }
        if j :| 0 <= j < n && Key(rows[..n][j]) == k { assert Key(rows[j]) == k; }
      }
    }

    // ---- conservation ------------------------------------------------------------------

    /** The rows whose key is not `k`. */
    function Others(rows: seq<Row>, k: seq<Value>): seq<Row> {
      if rows == [] then []
      else
        var more := Others(rows[..|rows| - 1], k);
        if Key(rows[|rows| - 1]) == k then more else more + [rows[|rows| - 1]]
    }

    lemma {:induction false} Split(rows: seq<Row>, k: seq<Value>, i: nat)
      requires i < |aggs|
      ensures |rows| == |Group(rows, k)| + |Others(rows, k)|
      ensures Sum(Column(rows, i)) == Sum(Column(Group(rows, k), i)) + Sum(Column(Others(rows, k), i))
    {
      if rows != [] {
        var init, r := rows[..|rows| - 1], rows[|rows| - 1];
        Split(init, k, i);
        assert rows == init + [r];
        SumNext(init, r, i);
        SumNext(Group(init, k), r, i);
        SumNext(Others(init, k), r, i);
      }
    }

    lemma SumNext(rows: seq<Row>, r: Row, i: nat)
      requires i < |aggs|
      ensures Sum(Column(rows + [r], i)) == Sum(Column(rows, i)) + Num(ValueOf(r, aggs[i].col))
    {
      ColumnNext(rows, r, i);
      var c := Column(rows, i);
      assert (c + [ValueOf(r, aggs[i].col)])[..|c|] == c;
    }

    lemma {:induction false} OtherGroups(rows: seq<Row>, k: seq<Value>, k': seq<Value>)
      requires k != k'
      ensures Group(Others(rows, k), k') == Group(rows, k') && !Occurs(Others(rows, k), k)
      ensures Occurs(rows, k') <==> Occurs(Others(rows, k), k')
    {
      if rows != [] {
        var init, r := rows[..|rows| - 1], rows[|rows| - 1];
        OtherGroups(init, k, k');
        GroupNext(Others(init, k), r, k');
      }
      GroupMembers(rows, k');
      GroupMembers(Others(rows, k), k');
      NoneLeft(rows, k);
    }

    lemma {:induction false} NoneLeft(rows: seq<Row>, k: seq<Value>)
      ensures forall j :: 0 <= j < |Others(rows, k)| ==> Key(Others(rows, k)[j]) != k
    {
      if rows != [] { NoneLeft(rows[..|rows| - 1], k); }
    }

    function Counts(keys: seq<seq<Value>>, rows: seq<Row>): nat {
      if keys == [] then 0 else |Group(rows, keys[0])| + Counts(keys[1..], rows)
    }

    function Sums(keys: seq<seq<Value>>, rows: seq<Row>, i: nat): real
      requires i < |aggs|
    {
      if keys == [] then 0.0 else Fold(Column(Group(rows, keys[0]), i)).sum + Sums(keys[1..], rows, i)
    }

    lemma {:induction false} SumsOfOthers(keys: seq<seq<Value>>, rows: seq<Row>, k: seq<Value>, i: nat)
      requires i < |aggs| && k !in keys
      ensures Counts(keys, Others(rows, k)) == Counts(keys, rows) && Sums(keys, Others(rows, k), i) == Sums(keys, rows, i)
    {
      if keys != [] {
        OtherGroups(rows, k, keys[0]);
        SumsOfOthers(keys[1..], rows, k, i);
      }
    }

    /** Over all keys the counts add up to the number of rows, and the sums of the groups to the
        ungrouped sum. */
    lemma {:induction false} GroupsAddUp(keys: seq<seq<Value>>, rows: seq<Row>, i: nat)
      requires i < |aggs|
      requires forall x, y :: 0 <= x < y < |keys| ==> keys[x] != keys[y]
      requires forall k :: Occurs(rows, k) ==> k in keys
      ensures Counts(keys, rows) == |rows| && Sums(keys, rows, i) == Fold(Column(rows, i)).sum
      decreases |keys|
    {
      FoldMeans(Column(rows, i));
      if keys == [] {
        if rows != [] { assert Occurs(rows, Key(rows[0])); }
      } else {
        var k, rest := keys[0], Others(rows, keys[0]);
        forall k' | Occurs(rest, k') ensures k' in keys[1..] {
          if k' == k { NoneLeft(rows, k); } else { OtherGroups(rows, k, k'); }
        }
        GroupsAddUp(keys[1..], rest, i);
        FoldMeans(Column(rest, i));
        FoldMeans(Column(Group(rows, k), i));
        Split(rows, k, i);
        SumsOfOthers(keys[1..], rows, k, i);
      }
    }

    // ---- ... as the output shows it ------------------------------------------------------

    /** The numbers in column `c` of the output added up. */
    function Total(out: seq<seq<Value>>, c: nat): real {
      if out == [] then 0.0 else (if c < |out[0]| then Num(out[0][c]) else 0.0) + Total(out[1..], c)
    }

    function Keys(out: seq<seq<Value>>): seq<seq<Value>>
      requires forall i :: 0 <= i < |out| ==> |out[i]| >= |groupCols|
    {
      seq(|out|, i requires 0 <= i < |out| => out[i][..|groupCols|])
    }

    lemma {:induction false} TotalsAreGroups(rows: seq<Row>, out: seq<seq<Value>>, i: nat)
      requires i < |aggs|
      requires forall x :: 0 <= x < |out| ==>
                             |out[x]| == |groupCols| + |aggs| && out[x] == RowOf(out[x][..|groupCols|], Group(rows, out[x][..|groupCols|]))
      ensures aggs[i].kind.AggCount? ==> Total(out, |groupCols| + i) == Counts(Keys(out), rows) as real
      ensures aggs[i].kind.AggSum? ==> Total(out, |groupCols| + i) == Sums(Keys(out), rows, i)
      decreases |out|
    {
      if out != [] {
        TotalsAreGroups(rows, out[1..], i);
        assert Keys(out)[1..] == Keys(out[1..]) && Keys(out)[0] == out[0][..|groupCols|];
        FoldMeans(Column(Group(rows, Keys(out)[0]), i));
      }
    }

    /** Without HAVING a COUNT column of the output adds up to the number of input rows, and a SUM
        column to the ungrouped sum. */
    lemma OutputAddsUp(rows: seq<Row>, out: seq<seq<Value>>, i: nat)
      requires i < |aggs| && having == [] && IsGrouped(rows, out)
      ensures aggs[i].kind.AggCount? ==> Total(out, |groupCols| + i) == |rows| as real
      ensures aggs[i].kind.AggSum? ==> Total(out, |groupCols| + i) == Fold(Column(rows, i)).sum
    {
      forall x | 0 <= x < |out| ensures out[x] == RowOf(out[x][..|groupCols|], Group(rows, out[x][..|groupCols|])) {
        OneOfTheGroups(rows, out, out[x]);
      }
      TotalsAreGroups(rows, out, i);
      forall k | Occurs(rows, k) ensures k in Keys(out) {
        var r := RowOf(k, Group(rows, k));
        assert CheckHaving(r);
        assert r in out;
        var x :| 0 <= x < |out| && out[x] == r;
        assert |k| == |groupCols| && Keys(out)[x] == k;
      }
      GroupsAddUp(Keys(out), rows, i);
    }

    lemma OneOfTheGroups(rows: seq<Row>, out: seq<seq<Value>>, r: seq<Value>)
      requires IsGrouped(rows, out) && r in out
      ensures |r| == |groupCols| + |aggs| && r == RowOf(r[..|groupCols|], Group(rows, r[..|groupCols|]))
    {
      var k :| Occurs(rows, k) && r == RowOf(k, Group(rows, k)) && CheckHaving(r);
      assert r[..|groupCols|] == k;
    }
  }
}
