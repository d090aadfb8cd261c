/** When sort-merge and the relational join agree, judged on the unsorted inputs. */
module MergeResult {
  import opened Conditions
  import opened JoinBags
  import opened JoinSpec
  import opened MergeSpec

  /** How many rows have key `k`. */
  function Count(rows: seq<Row>, key: Row -> Value, k: Value): nat {
    if rows == [] then 0 else (if key(rows[0]) == k then 1 else 0) + Count(rows[1..], key, k)
  }

  /** Some key occurs at least twice on the left and at least once on the right. */
  ghost predicate Repeated(m: Merging, left: seq<Row>, right: seq<Row>) {
    exists k :: Count(left, m.leftKey, k) >= 2 && Count(right, m.rightKey, k) >= 1
  }

  lemma {:induction false} CountConcat(a: seq<Row>, b: seq<Row>, key: Row -> Value, k: Value)
    ensures Count(a + b, key, k) == Count(a, key, k) + Count(b, key, k)
    decreases |a|
  {
    if a == [] {
      assert a + b == b;
    } else {
      CountConcat(a[1..], b, key, k);
      assert (a + b)[1..] == a[1..] + b;
    }
  }

  lemma {:induction false} CountBag(s: seq<Row>, t: seq<Row>, key: Row -> Value, k: Value)
    requires multiset(s) == multiset(t)
    ensures Count(s, key, k) == Count(t, key, k)
    decreases |s|
  {
    if s == [] {
      assert |multiset(t)| == 0;
    } else {
      var a, b := DropSame(s, t);
      CountBag(s[1..], a + b, key, k);
      CountConcat(a, b, key, k);
      CountConcat(a + [s[0]], b, key, k);
      CountConcat(a, [s[0]], key, k);
      assert [s[0]][1..] == [];
    }
  }

  /** A key is counted exactly when some row has it. */
  lemma {:induction false} CountOne(rows: seq<Row>, key: Row -> Value, k: Value)
    ensures Count(rows, key, k) >= 1 <==> exists x :: 0 <= x < |rows| && key(rows[x]) == k
  {
    if rows != [] {
      CountOne(rows[1..], key, k);
      if Count(rows[1..], key, k) >= 1 {
        var x :| 0 <= x < |rows[1..]| && key(rows[1..][x]) == k;
        assert key(rows[x + 1]) == k;
      }
      if x :| 0 < x < |rows| && key(rows[x]) == k { assert key(rows[1..][x - 1]) == k; }
    }
  }

  /** Rows `i - 1` and `i` have key `k`. */
  predicate PairAt(rows: seq<Row>, key: Row -> Value, k: Value, i: nat) {
    0 < i < |rows| && key(rows[i - 1]) == key(rows[i]) == k
  }

  /** In a sorted input a key occurs twice exactly when two neighbours have it. */
  lemma {:induction false} CountTwo(rows: seq<Row>, key: Row -> Value, k: Value)
    requires Sorted(rows, key)
    ensures Count(rows, key, k) >= 2 <==> exists i: nat :: PairAt(rows, key, k, i)
  {
    if rows != [] {
      var rest := rows[1..];
      CountTwo(rest, key, k);
      if Count(rest, key, k) >= 2 {
        var i: nat :| PairAt(rest, key, k, i);
        assert PairAt(rows, key, k, i + 1);
      } else if key(rows[0]) == k && Count(rows, key, k) >= 2 {
        CountOne(rest, key, k);
        var x :| 0 <= x < |rest| && key(rest[x]) == k;
        Between(rows, key, k, x + 1);
        assert PairAt(rows, key, k, 1);
      }
      if i: nat :| PairAt(rows, key, k, i) {
        CountOne(rest, key, k);
        assert key(rest[i - 1]) == k;
        if i > 1 { assert PairAt(rest, key, k, i - 1); }
      }
    }
  }

  /** Between two equal keys of a sorted input all keys are equal. */
  lemma Between(rows: seq<Row>, key: Row -> Value, k: Value, x: nat)
    requires Sorted(rows, key) && 0 < x < |rows| && key(rows[0]) == k && key(rows[x]) == k
    ensures key(rows[1]) == k
  {
    CmpOrder(k, key(rows[1]), k);
    CmpOrder(key(rows[1]), k, key(rows[1]));
    assert Cmp(key(rows[0]), key(rows[1])) <= 0 && (x > 1 ==> Cmp(key(rows[1]), key(rows[x])) <= 0);
  }

  lemma OccursIsCount(m: Merging, k: Value, right: seq<Row>)
    ensures m.Occurs(k, right) <==> Count(right, m.rightKey, k) >= 1
  {
    CountOne(right, m.rightKey, k);
    forall x | 0 <= x < |right| ensures Cmp(k, m.rightKey(right[x])) == 0 <==> m.rightKey(right[x]) == k {
      CmpOrder(k, m.rightKey(right[x]), k);
    }
  }

  /** A key repeated in the sorted inputs is a key shared by neighbours. */
  lemma SharedIsRepeatedSorted(m: Merging, left: seq<Row>, right: seq<Row>)
    requires Sorted(left, m.leftKey)
    ensures m.SharedKey(left, right) <==> Repeated(m, left, right)
  {
    if m.SharedKey(left, right) {
      var i: nat :| m.SharedAt(left, right, i);
      PairIsRepeated(m, left, right, i);
    }
    if Repeated(m, left, right) {
      var k :| Count(left, m.leftKey, k) >= 2 && Count(right, m.rightKey, k) >= 1;
      RepeatedIsPair(m, left, right, k);
    }
  }

  lemma PairIsRepeated(m: Merging, left: seq<Row>, right: seq<Row>, i: nat)
    requires Sorted(left, m.leftKey) && m.SharedAt(left, right, i)
    ensures Repeated(m, left, right)
  {
    var k := m.leftKey(left[i]);
    CountTwo(left, m.leftKey, k);
    assert PairAt(left, m.leftKey, k, i);
    OccursIsCount(m, k, right);
  }

  lemma RepeatedIsPair(m: Merging, left: seq<Row>, right: seq<Row>, k: Value)
    requires Sorted(left, m.leftKey) && Count(left, m.leftKey, k) >= 2 && Count(right, m.rightKey, k) >= 1
    ensures m.SharedKey(left, right)
  {
    CountTwo(left, m.leftKey, k);
    OccursIsCount(m, k, right);
    var i: nat :| PairAt(left, m.leftKey, k, i);
    assert m.SharedAt(left, right, i);
  }

  lemma RepeatedBag(m: Merging, l: seq<Row>, r: seq<Row>, left: seq<Row>, right: seq<Row>)
    requires multiset(left) == multiset(l) && multiset(right) == multiset(r)
    ensures Repeated(m, left, right) <==> Repeated(m, l, r)
  {
    forall k
      ensures Count(left, m.leftKey, k) == Count(l, m.leftKey, k) && Count(right, m.rightKey, k) == Count(r, m.rightKey, k)
    {
      CountBag(left, l, m.leftKey, k);
      CountBag(right, r, m.rightKey, k);
    }
  }

  /** Neighbours sharing a key in the sorted inputs are a key repeated in the unsorted ones. */
  lemma SharedIsRepeated(m: Merging, l: seq<Row>, r: seq<Row>, left: seq<Row>, right: seq<Row>)
    requires Sorted(left, m.leftKey) && multiset(left) == multiset(l) && multiset(right) == multiset(r)
    ensures m.SharedKey(left, right) <==> Repeated(m, l, r)
  {
    SharedIsRepeatedSorted(m, left, right);
    RepeatedBag(m, l, r, left, right);
  }

  /** The rows of a sorting child. */
  ghost predicate SortOf(sorted: seq<Row>, rows: seq<Row>, key: Row -> Value) {
    Sorted(sorted, key) && multiset(sorted) == multiset(rows)
  }

  /** If no repeated left key has a partner key, sort-merge yields the rows of the relational join
      of the unsorted inputs, and in the order of the nested loop over the sorted ones. */
  lemma MergeIsJoin(m: Merging, l: seq<Row>, r: seq<Row>, left: seq<Row>, right: seq<Row>)
    requires SortOf(left, l, m.leftKey) && SortOf(right, r, m.rightKey)
    requires m.lhsIsLeft && m.KeysFit(left, right) && m.join.jt.Inner? && !Repeated(m, l, r)
    ensures m.Start(left, right, 0, 0) == m.join.Rows(left, right)
    ensures multiset(m.Start(left, right, 0, 0)) == multiset(m.join.Rows(l, r))
  {
    SharedIsRepeated(m, l, r, left, right);
    m.NothingShared(left, right);
    RowsBag(m.join, left, l, right, r);
  }

  /** For a pure equi-join that condition is exact. */
  lemma EquiJoinIff(m: Merging, l: seq<Row>, r: seq<Row>, left: seq<Row>, right: seq<Row>)
    requires SortOf(left, l, m.leftKey) && SortOf(right, r, m.rightKey)
    requires m.lhsIsLeft && m.MatchesAreKeys(left, right) && m.join.jt.Inner?
    ensures multiset(m.Start(left, right, 0, 0)) == multiset(m.join.Rows(l, r)) <==> !Repeated(m, l, r)
  {
    SharedIsRepeated(m, l, r, left, right);
    m.EquiMergeIff(left, right);
    m.MergeIsJoinIff(left, right);
    RowsBag(m.join, left, l, right, r);
  }

  function KeyA(row: Row): Value {
    if Col("t", "a") in row then row[Col("t", "a")] else IntV(0)
  }

  function EquiJoinOnA(): Merging {
    Merging(Join((l: Row, r: Row) => KeyA(l) == KeyA(r), Inner, map[]), KeyA, KeyA, true)
  }

  /** Two equal left keys and one partner: the join has two rows, the merge yields one. */
  lemma RepeatedKeyLosesRow()
    ensures var m := EquiJoinOnA(); var row := map[Col("t", "a") := IntV(7)];
            |m.join.Rows([row, row], [row])| == 2 && |m.Start([row, row], [row], 0, 0)| == 1
  {
    var m := EquiJoinOnA();
    var row := map[Col("t", "a") := IntV(7)];
    var left, right := [row, row], [row];
    assert m.CompareKeys(row, row) == 0;
    assert right[1..] == [] && left[1..] == [row] && right[0..1] == right && [row][1..] == [];
    assert m.join.Partners(row, right) == [row + row];
    assert m.join.Block(row, right) == [row + row];
    assert m.join.Rows([row], right) == [row + row];
    assert m.RunTo(row, right, 0) == 1;
    assert m.TakeTo(row, right, 1) == 1;
    assert m.From(left, right, 1, 1) == m.From(left, right, 2, 0) == [];
  }

  /** The condition names the right column first, so the comparison runs backwards: left keys 1
      and 2 with right key 2 have a common key, and the merge yields nothing. */
  lemma ReversedConditionLosesRow()
    ensures var m := EquiJoinOnA().(lhsIsLeft := false);
            var one, two := map[Col("t", "a") := IntV(1)], map[Col("t", "a") := IntV(2)];
            |m.join.Rows([one, two], [two])| == 1 && m.Start([one, two], [two], 0, 0) == []
  {
    var m := EquiJoinOnA().(lhsIsLeft := false);
    var one, two := map[Col("t", "a") := IntV(1)], map[Col("t", "a") := IntV(2)];
    var left, right := [one, two], [two];
    assert right[1..] == [] && left[1..] == [two] && [two][1..] == [];
    assert KeyA(one) == IntV(1) && KeyA(two) == IntV(2);
    assert m.CompareKeys(one, two) == 1;
    assert m.Start(left, right, 0, 0) == m.Start(left, right, 0, 1);
    assert m.join.Partners(one, right) == [] && m.join.Partners(two, right) == [two + two];
    assert m.join.Block(one, right) == [] && m.join.Block(two, right) == [two + two];
    assert m.join.Rows([two], right) == [two + two];
  }
}
