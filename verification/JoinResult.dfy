/** What the join of two inputs may yield, by algorithm, and when that is the relational join. */
module JoinResult {
  import opened CharColumns
  import opened Conditions
  import opened JoinAlgebra
  import opened JoinKeys
  import opened JoinSpec
  import opened MergeResult
  import HashProbe
  import MergeSpec
  import opened Planner

  /** A join as the executors run it: the conditions, the kind, the padding row, and what the
      evaluators know of CHAR columns. */
  datatype JoinRun = JoinRun(conds: seq<Condition>, jt: JoinType, pad: Row, chars: Chars) {

    function Join(): Join {
      chars.ByteJoin(conds, jt, pad)
    }

    /** The join the conditions mean. */
    function Meant(): Join {
      ConditionJoin(conds, jt, pad)
    }

    function Hashing(sides: Sides, floatBytes: real -> seq<int>): HashProbe.Hashing {
      sides.HashingOf(conds, jt, pad, floatBytes).(join := Join())
    }

    function Merging(sides: Sides): MergeSpec.Merging {
      sides.MergingOf(conds, pad).(join := Join())
    }

    /** Compared CHAR columns have one length. */
    ghost predicate Fits() {
      forall c :: c in conds ==> chars.Fits(c)
    }

    ghost predicate RowsOk(rows: seq<Row>) {
      forall row :: row in rows ==> chars.RowOk(row)
    }
  }

  /** The hash join gives what its phases yield from some table over the left input, and the merge
      join works on some sorting of each input. A hash join without an equi-condition is a nested
      loop. */
  ghost predicate JoinYields(sides: Sides, tag: Tag, run: JoinRun, l: seq<Row>, r: seq<Row>, out: seq<Row>) {
    if tag.HashJoin? && EquiConds(run.conds) != [] then exists floatBytes, t :: HashYields(sides, run, floatBytes, t, l, r, out)
    else if tag.SortMerge? then exists sl, sr :: MergeYields(sides, run, l, r, sl, sr, out)
    else out == run.Join().Rows(l, r)
  }

  ghost predicate HashYields(sides: Sides, run: JoinRun, floatBytes: real -> seq<int>, t: HashProbe.Table, l: seq<Row>, r: seq<Row>, out: seq<Row>) {
    var h := run.Hashing(sides, floatBytes);
    h.TableOk(l, t) && out == h.RestDue(l, t, r, seq(|l|, _ => false))
  }

  ghost predicate MergeYields(sides: Sides, run: JoinRun, l: seq<Row>, r: seq<Row>, sl: seq<Row>, sr: seq<Row>, out: seq<Row>) {
    var m := run.Merging(sides);
    SortOf(sl, l, m.leftKey) && SortOf(sr, r, m.rightKey) && out == m.Start(sl, sr, 0, 0)
  }

  /** When a merge join can be trusted: one key, the left column named first, and no key that
      repeats on the left has a partner. */
  ghost predicate MergeOk(sides: Sides, run: JoinRun, l: seq<Row>, r: seq<Row>) {
    run.jt.Inner? && OneKeyFirst(sides, run.conds) && !Repeated(run.Merging(sides), l, r)
  }

  ghost predicate OneKeyFirst(sides: Sides, conds: seq<Condition>) {
    var equi := EquiConds(conds);
    sides.OneKey(equi) && (equi != [] ==> sides.LhsIsLeft(equi[0]))
  }

  /** Where lengths fit, the executors decide on pairs of rows as the conditions mean. */
  lemma DecidesAsMeant(run: JoinRun, l: seq<Row>, r: seq<Row>)
    requires run.Fits() && run.RowsOk(l) && run.RowsOk(r)
    ensures SamePairs(run.Join(), run.Meant(), l, r)
  {
    forall x, y | x in l && y in r ensures run.Join().matches(x, y) <==> run.Meant().matches(x, y) {
      run.chars.AllIsWhole(run.conds, x, y);
    }
  }

  ghost predicate Ready(sides: Sides, run: JoinRun, l: seq<Row>, r: seq<Row>) {
    && sides.Valid() && sides.Crossing(EquiConds(run.conds)) && sides.Fit(l, r)
    && run.Fits() && run.RowsOk(l) && run.RowsOk(r)
  }

  lemma HashIsMeant(sides: Sides, run: JoinRun, floatBytes: real -> seq<int>, t: HashProbe.Table, l: seq<Row>, r: seq<Row>, out: seq<Row>)
    requires Ready(sides, run, l, r) && HashYields(sides, run, floatBytes, t, l, r, out)
    ensures multiset(out) == multiset(run.Join().Rows(l, r))
  {
    var h := run.Hashing(sides, floatBytes);
    DecidesAsMeant(run, l, r);
    sides.HashKeysFit(run.conds, run.jt, run.pad, floatBytes, l, r);
    var whole := sides.HashingOf(run.conds, run.jt, run.pad, floatBytes);
    forall i, j | 0 <= i < |l| && 0 <= j < |r| && h.join.matches(l[i], r[j]) ensures h.leftKey(l[i]) == h.rightKey(r[j]) {
      assert whole.join.matches(l[i], r[j]);
    }
    h.HashJoinIsJoin(l, t, r);
  }

  lemma SortedReady(sides: Sides, run: JoinRun, l: seq<Row>, r: seq<Row>, sl: seq<Row>, sr: seq<Row>)
    requires Ready(sides, run, l, r) && multiset(sl) == multiset(l) && multiset(sr) == multiset(r)
    ensures Ready(sides, run, sl, sr)
  {
    SameMembers(sl, l);
    SameMembers(sr, r);
    forall i | 0 <= i < |sl| ensures sl[i].Keys == sides.leftCols {
      assert sl[i] in l;
    }
    forall i | 0 <= i < |sr| ensures sr[i].Keys == sides.rightCols {
      assert sr[i] in r;
    }
  }

  lemma SameMembers(s: seq<Row>, t: seq<Row>)
    requires multiset(s) == multiset(t)
    ensures forall row :: row in s <==> row in t
  {
    assert forall row :: row in s <==> row in multiset(s);
    assert forall row :: row in t <==> row in multiset(t);
  }

  lemma MergeIsMeant(sides: Sides, run: JoinRun, l: seq<Row>, r: seq<Row>, sl: seq<Row>, sr: seq<Row>, out: seq<Row>)
    requires Ready(sides, run, l, r) && MergeYields(sides, run, l, r, sl, sr, out) && MergeOk(sides, run, l, r)
    ensures multiset(out) == multiset(run.Join().Rows(l, r))
  {
    var m, whole := run.Merging(sides), sides.MergingOf(run.conds, run.pad);
    SortedReady(sides, run, l, r, sl, sr);
    DecidesAsMeant(run, sl, sr);
    sides.MergeKeysFit(run.conds, run.pad, sl, sr);
    forall i, j | 0 <= i < |sl| && 0 <= j < |sr| && m.join.matches(sl[i], sr[j]) ensures m.CompareKeys(sl[i], sr[j]) == 0 {
      assert whole.join.matches(sl[i], sr[j]);
      assert whole.CompareKeys(sl[i], sr[j]) == 0;
    }
    MergeIsJoin(m, l, r, sl, sr);
  }

  /** Whatever algorithm runs a join, where lengths fit its rows are a permutation of the join that
      the conditions mean; sort-merge where it can be trusted. */
  lemma AnyAlgorithm(sides: Sides, tag: Tag, run: JoinRun, l: seq<Row>, r: seq<Row>, out: seq<Row>)
    requires Ready(sides, run, l, r) && JoinYields(sides, tag, run, l, r, out)
    requires tag.SortMerge? ==> MergeOk(sides, run, l, r)
    ensures multiset(out) == multiset(run.Meant().Rows(l, r))
  {
    DecidesAsMeant(run, l, r);
    RowsCongruence(run.Join(), run.Meant(), l, r);
    if tag.HashJoin? && EquiConds(run.conds) != [] {
      var floatBytes, t :| HashYields(sides, run, floatBytes, t, l, r, out);
      HashIsMeant(sides, run, floatBytes, t, l, r, out);
    } else if tag.SortMerge? {
      var sl, sr :| MergeYields(sides, run, l, r, sl, sr, out);
      MergeIsMeant(sides, run, l, r, sl, sr, out);
    }
  }
}
