/** From a join plan to an executor, and the full iteration of that executor. */
module Portal {
  import opened Conditions
  import opened JoinKeys
  import opened JoinSpec
  import opened MergeResult
  import HashJoin
  import NestedLoopJoin
  import SortMergeJoin
  import opened JoinResult
  import opened Planner

  /** Collects the conditions that equate two columns. */
  method ExtractEqui(conds: seq<Condition>) returns (equi: seq<Condition>)
    ensures equi == EquiConds(conds)
  {
    equi := [];
    for i := 0 to |conds|
      invariant equi == Select(conds[..i], EquatesColumns)
    {
      SelectNext(conds, i, EquatesColumns);
      if !conds[i].isRhsVal && conds[i].op.OpEq? {
        equi := equi + [conds[i]];
      }
    }
    assert conds[..|conds|] == conds;
  }

  /** Runs a join whose sides are in place: what comes out is what the plan may yield. A sort-merge
      join is INNER. */
  method RunJoin(sides: Sides, tag: Tag, run: JoinRun, left: Cursor, right: Cursor,
                 floatBytes: real -> seq<int>, sortLeft: seq<Row> -> seq<Row>, sortRight: seq<Row> -> seq<Row>)
    returns (out: seq<Row>)
    requires left != right && (tag.SortMerge? ==> run.jt.Inner?)
    requires tag.SortMerge? ==> SortOf(sortLeft(left.rows), left.rows, run.Merging(sides).leftKey)
    requires tag.SortMerge? ==> SortOf(sortRight(right.rows), right.rows, run.Merging(sides).rightKey)
    modifies left, right
    ensures JoinYields(sides, tag, run, left.rows, right.rows, out)
  {
    var equi := ExtractEqui(run.conds);
    if tag.HashJoin? && equi != [] {
      var join := new HashJoin.HashJoinExecutor(run.Hashing(sides, floatBytes), left, right);
      out := join.Drain();
      assert HashYields(sides, run, floatBytes, join.hashTable, left.rows, right.rows, out);
    } else if tag.SortMerge? {
      var sortedLeft := new SortMergeJoin.SortExecutor(left, sortLeft);
      var sortedRight := new SortMergeJoin.SortExecutor(right, sortRight);
      var join := new SortMergeJoin.SortMergeJoinExecutor(run.Merging(sides), sortedLeft, sortedRight);
      out := join.Drain();
      assert MergeYields(sides, run, left.rows, right.rows, sortLeft(left.rows), sortRight(right.rows), out);
    } else {
      var join := new NestedLoopJoin.NestedLoopJoinExecutor(run.Join(), left, right);
      out := join.Drain();
    }
  }

  /** Runs a LEFT or RIGHT join by hashing or nested loops; a RIGHT join is a LEFT join with the
      sides exchanged. `sides` describes the children in the order they are run. */
  method RunOuter(sides: Sides, tag: Tag, kind: JoinKind, run: JoinRun, left: Cursor, right: Cursor, floatBytes: real -> seq<int>)
    returns (out: seq<Row>)
    requires left != right && !kind.InnerJoin? && run.jt.LeftOuter? && !tag.SortMerge?
    modifies left, right
    ensures if kind.RightJoin? then JoinYields(sides, tag, run, right.rows, left.rows, out)
            else JoinYields(sides, tag, run, left.rows, right.rows, out)
  {
    var l, r := left, right;
    if kind.RightJoin? {
      l, r := right, left;
    }
    out := RunJoin(sides, tag, run, l, r, floatBytes, (rows: seq<Row>) => rows, (rows: seq<Row>) => rows);
  }
}
