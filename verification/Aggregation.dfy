/** The hash aggregation executor. */
module Aggregation {
  import opened AggregateSpec
  import opened Conditions
  import opened JoinSpec

  type Key = seq<Value>

  class AggregationExecutor {
    const grouping: Grouping
    const child: Cursor
    var results: seq<seq<Value>>
    var resultPos: nat
    var isEnd: bool

    constructor (grouping: Grouping, child: Cursor)
      ensures this.grouping == grouping && this.child == child && isEnd
    {
      this.grouping, this.child := grouping, child;
      results, resultPos, isEnd := [], 0, true;
    }

    ghost predicate Valid()
      reads this
    {
      isEnd <==> resultPos >= |results|
    }

    /** What is still to be yielded, the current row first. */
    ghost function Remaining(): seq<seq<Value>>
      requires Valid()
      reads this
    {
      if isEnd then [] else results[resultPos..]
    }

    /** The states are the folds over the rows so far of one group. */
    ghost predicate StatesOk(states: seq<AggState>, rows: seq<Row>) {
      |states| == |grouping.aggs| && forall i :: 0 <= i < |states| ==> states[i] == Fold(grouping.Column(rows, i))
    }

    /** Adds a row to the states of its group. */
    method AccumulateRow(states: seq<AggState>, row: Row, ghost rows: seq<Row>) returns (next: seq<AggState>)
      requires StatesOk(states, rows)
      ensures StatesOk(next, rows + [row])
    {
      next := states;
      for i := 0 to |grouping.aggs|
        invariant |next| == |states|
        invariant forall j :: 0 <= j < i ==> next[j] == Fold(grouping.Column(rows + [row], j))
        invariant forall j :: i <= j < |next| ==> next[j] == states[j]
      {
        var v := grouping.ValueOf(row, grouping.aggs[i].col);
        grouping.ColumnNext(rows, row, i);
        FoldNext(grouping.Column(rows, i), v);
        next := next[i := Accumulate(next[i], v)];
      }
    }

    function Fresh(): seq<AggState> {
      seq(|grouping.aggs|, _ => EMPTY)
    }

    /** The table of the groups: the keys that occur, each with its states. */
    ghost predicate TableOk(groups: map<Key, seq<AggState>>, rows: seq<Row>) {
      && (forall k :: k in groups <==> grouping.Occurs(rows, k))
      && (forall k :: k in groups ==> StatesOk(groups[k], grouping.Group(rows, k)))
    }

    lemma TableNext(groups: map<Key, seq<AggState>>, rows: seq<Row>, row: Row, states: seq<AggState>)
      requires TableOk(groups, rows) && StatesOk(states, grouping.Group(rows, grouping.Key(row)) + [row])
      ensures TableOk(groups[grouping.Key(row) := states], rows + [row])
    {
      var key, rows', groups' := grouping.Key(row), rows + [row], groups[grouping.Key(row) := states];
      forall k ensures k in groups' <==> grouping.Occurs(rows', k) {
        if k == key { assert grouping.Key(rows'[|rows|]) == k; }
        if j :| 0 <= j < |rows| && grouping.Key(rows[j]) == k { assert grouping.Key(rows'[j]) == k; }
        if j :| 0 <= j < |rows'| && grouping.Key(rows'[j]) == k { assert j == |rows| || grouping.Key(rows[j]) == k; }
      }
      forall k | k in groups' ensures StatesOk(groups'[k], grouping.Group(rows', k)) {
        grouping.GroupNext(rows, row, k);
      }
    }

    /** Adds a row to its group, which may be new. */
    method AddRow(groups: map<Key, seq<AggState>>, rec: Row, ghost rows: seq<Row>) returns (next: map<Key, seq<AggState>>)
      requires TableOk(groups, rows)
      ensures TableOk(next, rows + [rec])
    {
      var key := grouping.Key(rec);
      grouping.GroupMembers(rows, key);
      var states := if key in groups then groups[key] else Fresh();
      assert StatesOk(states, grouping.Group(rows, key));
      states := AccumulateRow(states, rec, grouping.Group(rows, key));
      TableNext(groups, rows, rec, states);
      next := groups[key := states];
    }

    /** Reads all rows of the child into the groups. */
    method CollectGroups() returns (groups: map<Key, seq<AggState>>)
      modifies child
      ensures TableOk(groups, child.rows)
    {
      groups := map[];
      child.BeginTuple();
      while !child.IsEnd()
        invariant child.pos <= |child.rows| && TableOk(groups, child.rows[..child.pos])
        decreases |child.rows| - child.pos
      {
        assert child.rows[..child.pos + 1] == child.rows[..child.pos] + [child.Next()];
        groups := AddRow(groups, child.Next(), child.rows[..child.pos]);
        child.NextTuple();
      }
      assert child.rows[..child.pos] == child.rows;
    }

    /** The output row of one group. */
    method MakeRow(key: Key, states: seq<AggState>, ghost group: seq<Row>) returns (rec: seq<Value>)
      requires StatesOk(states, group)
      ensures rec == grouping.RowOf(key, group)
    {
      rec := key;
      for i := 0 to |grouping.aggs|
        invariant rec == key + grouping.RowOf(key, group)[|key|..|key| + i]
      {
        assert grouping.RowOf(key, group)[|key|..|key| + i + 1] ==
               grouping.RowOf(key, group)[|key|..|key| + i] + [grouping.RowOf(key, group)[|key| + i]];
        rec := rec + [ComputeValue(states[i], grouping.aggs[i].kind)];
      }
    }

    ghost predicate GroupOk(key: Key, states: seq<AggState>, rows: seq<Row>) {
      |key| == |grouping.groupCols| && StatesOk(states, grouping.Group(rows, key))
    }

    /** Makes the row of one group and keeps it if it passes HAVING. */
    method EmitGroup(key: Key, states: seq<AggState>, ghost keys: seq<Key>, ghost rows: seq<Row>)
      requires results == grouping.Emitted(keys, rows) && GroupOk(key, states, rows)
      modifies `results
      ensures results == grouping.Emitted(keys + [key], rows)
    {
      var rec := MakeRow(key, states, grouping.Group(rows, key));
      grouping.EmittedNext(keys, key, rows);
      if grouping.CheckHaving(rec) {
        results := results + [rec];
      }
    }

    /** Makes the output rows; the table hands out its groups in any order. */
    method EmitAll(groups: map<Key, seq<AggState>>, ghost rows: seq<Row>) returns (ghost keys: seq<Key>)
      requires forall k :: k in groups ==> GroupOk(k, groups[k], rows)
      modifies `results
      ensures results == grouping.Emitted(keys, rows)
      ensures forall k :: k in keys <==> k in groups
      ensures forall i, j :: 0 <= i < j < |keys| ==> keys[i] != keys[j]
    {
      results := [];
      keys := [];
      var todo := groups.Keys;
      while todo != {}
        invariant results == grouping.Emitted(keys, rows)
        invariant todo <= groups.Keys && forall k :: k in keys <==> k in groups && k !in todo
        invariant forall i, j :: 0 <= i < j < |keys| ==> keys[i] != keys[j]
        decreases |todo|
      {
        var key :| key in todo;
        EmitGroup(key, groups[key], keys, rows);
        assert key !in keys;
        keys := keys + [key];
        todo := todo - {key};
      }
    }

    method EmitGroups(groups: map<Key, seq<AggState>>, ghost rows: seq<Row>)
      requires TableOk(groups, rows)
      modifies `results
      ensures grouping.IsGrouped(rows, results)
    {
      KeyLengths(groups, rows);
      ghost var keys := EmitAll(groups, rows);
      assert forall i :: 0 <= i < |keys| ==> keys[i] in keys;
      grouping.EmittedIsGrouped(keys, rows);
    }

    lemma KeyLengths(groups: map<Key, seq<AggState>>, rows: seq<Row>)
      requires TableOk(groups, rows)
      ensures forall k :: k in groups ==> |k| == |grouping.groupCols|
    {
      forall k | k in groups ensures |k| == |grouping.groupCols| {
        assert grouping.Occurs(rows, k);
      }
    }

    /** Without GROUP BY: one row over all input rows, if it passes HAVING. */
    method AggregateAll()
      requires grouping.groupCols == []
      modifies child, `results
      ensures var row := grouping.RowOf([], child.rows); results == if grouping.CheckHaving(row) then [row] else []
    {
      results := [];
      var states := Fresh();
      child.BeginTuple();
      while !child.IsEnd()
        invariant child.pos <= |child.rows| && StatesOk(states, child.rows[..child.pos]) && results == []
        decreases |child.rows| - child.pos
      {
        states := AccumulateRow(states, child.Next(), child.rows[..child.pos]);
        assert child.rows[..child.pos + 1] == child.rows[..child.pos] + [child.Next()];
        child.NextTuple();
      }
      assert child.rows[..child.pos] == child.rows;
      var rec := MakeRow([], states, child.rows);
      if grouping.CheckHaving(rec) {
        results := results + [rec];
      }
    }

    /** Computes all output rows and stands on the first. */
    method BeginTuple()
      modifies this, child
      ensures Valid()
      ensures grouping.groupCols == [] ==>
                var row := grouping.RowOf([], child.rows); Remaining() == if grouping.CheckHaving(row) then [row] else []
      ensures grouping.groupCols != [] ==> grouping.IsGrouped(child.rows, Remaining())
    {
      resultPos := 0;
      if grouping.groupCols == [] {
        AggregateAll();
      } else {
        var groups := CollectGroups();
        EmitGroups(groups, child.rows);
      }
      isEnd := results == [];
      assert results[0..] == results;
    }

    method NextTuple()
      requires Valid() && !isEnd
      modifies this
      ensures Valid() && Remaining() == old(Remaining())[1..]
    {
      resultPos := resultPos + 1;
      if resultPos >= |results| {
        isEnd := true;
      }
    }

    method Next() returns (row: seq<Value>)
      requires Valid() && !isEnd
      ensures row == Remaining()[0]
    {
      row := results[resultPos];
    }
  }
}
