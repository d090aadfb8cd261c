/** The keys the hash and the merge join take from the equi-conditions. */
module JoinKeys {
  import opened Conditions
  import opened JoinSpec
  import HashProbe
  import KeyOrder
  import MergeSpec
  import Planner

  predicate EquatesColumns(c: Condition) {
    !c.isRhsVal && c.op.OpEq?
  }

  /** The conditions that equate two columns. */
  function EquiConds(conds: seq<Condition>): (equi: seq<Condition>)
    ensures forall c :: c in equi <==> c in conds && EquatesColumns(c)
  {
    Planner.SelectIn(conds, EquatesColumns);
    Planner.Select(conds, EquatesColumns)
  }

  /** The two inputs of a join: the left table's name and the columns of each side. */
  datatype Sides = Sides(leftTab: string, leftCols: set<Col>, rightCols: set<Col>) {

    ghost predicate Valid() {
      leftCols !! rightCols && (forall c :: c in leftCols ==> c.tab == leftTab) && (forall c :: c in rightCols ==> c.tab != leftTab)
    }

    predicate LhsIsLeft(cond: Condition) {
      cond.lhs.tab == leftTab
    }

    function LeftCol(cond: Condition): Col {
      if LhsIsLeft(cond) then cond.lhs else cond.rhs
    }

    function RightCol(cond: Condition): Col {
      if LhsIsLeft(cond) then cond.rhs else cond.lhs
    }

    /** Every equi-condition joins a column of the left side with one of the right side. */
    ghost predicate Crossing(equi: seq<Condition>) {
      forall c :: c in equi ==> LeftCol(c) in leftCols && RightCol(c) in rightCols
    }

    ghost predicate Fit(left: seq<Row>, right: seq<Row>) {
      && (forall i :: 0 <= i < |left| ==> left[i].Keys == leftCols)
      && (forall i :: 0 <= i < |right| ==> right[i].Keys == rightCols)
    }

    // ---- the hash key -------------------------------------------------------

    /** The byte string of a row: the bytes of each key column, each ended by a zero. */
    function BuildKey(equi: seq<Condition>, row: Row, isLeft: bool, floatBytes: real -> seq<int>): HashProbe.Key
    {
      if equi == [] then []
      else
        var col := if LhsIsLeft(equi[0]) == isLeft then equi[0].lhs else equi[0].rhs;
        (if col in row then ValueBytes(row[col], floatBytes) else []) + [0] + BuildKey(equi[1..], row, isLeft, floatBytes)
    }

    static function ValueBytes(v: Value, floatBytes: real -> seq<int>): seq<int> {
      match v
      case IntV(i) => IntBytes(i)
      case FloatV(r) => floatBytes(r)
      case StrV(s) => s
    }

    /** What an equi-condition demands of a pair of rows. */
    lemma EquiHolds(cond: Condition, l: Row, r: Row)
      requires Valid() && Crossing([cond]) && !cond.isRhsVal && cond.op.OpEq?
      requires l.Keys == leftCols && r.Keys == rightCols
      ensures JoinCond(cond, l.Keys + r.Keys) && (EvalPair(cond, l, r) <==> l[LeftCol(cond)] == r[RightCol(cond)])
    {
      assert cond in [cond];
      var a, b := Field(l, r, cond.lhs), Field(l, r, cond.rhs);
      if a.Type() == b.Type() { CompareOrder(a, b, a); }
    }

    lemma {:induction false} SameKey(equi: seq<Condition>, l: Row, r: Row, floatBytes: real -> seq<int>)
      requires Valid() && Crossing(equi) && l.Keys == leftCols && r.Keys == rightCols
      requires forall c :: c in equi ==> l[LeftCol(c)] == r[RightCol(c)]
      ensures BuildKey(equi, l, true, floatBytes) == BuildKey(equi, r, false, floatBytes)
    {
      if equi != [] {
        assert equi[0] in equi;
        SameKey(equi[1..], l, r, floatBytes);
      }
    }

    // ---- rows with the same key agree ---------------------------------------------------

    /** A value as a record can hold it: 32 bits, or bytes that are not zero. */
    static predicate Storable(v: Value) {
      match v
      case IntV(i) => -0x8000_0000 <= i < 0x8000_0000
      case FloatV(_) => true
      case StrV(s) => 0 !in s
    }

    /** The four bytes of a FLOAT tell it from every other. */
    static ghost predicate FourBytes(floatBytes: real -> seq<int>) {
      (forall x :: |floatBytes(x)| == 4) && (forall x, y :: floatBytes(x) == floatBytes(y) ==> x == y)
    }

    /** The bytes of a value end where the zero is expected. */
    static lemma FirstPart(v: Value, w: Value, floatBytes: real -> seq<int>, x: seq<int>, y: seq<int>)
      requires v.Type() == w.Type() && Storable(v) && Storable(w) && FourBytes(floatBytes)
      requires ValueBytes(v, floatBytes) + [0] + x == ValueBytes(w, floatBytes) + [0] + y
      ensures v == w && x == y
    {
      var a, b := ValueBytes(v, floatBytes), ValueBytes(w, floatBytes);
      var p, q := a + [0] + x, b + [0] + y;
      assert p[|a|] == 0 == q[|b|];
      assert forall i :: 0 <= i < |a| ==> p[i] == a[i];
      assert forall i :: 0 <= i < |b| ==> q[i] == b[i];
      assert |a| == |b|;
      assert a == p[..|a|] && b == q[..|b|];
      assert x == p[|a| + 1..] && y == q[|b| + 1..];
      if v.IntV? {
        KeyOrder.BytesRead(v.i);
        KeyOrder.BytesRead(w.i);
      }
    }

    /** The key tells rows apart: with columns of one type in every equi-condition, two rows have the
        same key if and only if they agree on all of them. */
    lemma {:induction false} SameKeyIff(equi: seq<Condition>, l: Row, r: Row, floatBytes: real -> seq<int>)
      requires Valid() && Crossing(equi) && l.Keys == leftCols && r.Keys == rightCols && FourBytes(floatBytes)
      requires forall c :: c in equi ==> l[LeftCol(c)].Type() == r[RightCol(c)].Type()
      requires forall c :: c in equi ==> Storable(l[LeftCol(c)]) && Storable(r[RightCol(c)])
      ensures BuildKey(equi, l, true, floatBytes) == BuildKey(equi, r, false, floatBytes) <==>
              forall c :: c in equi ==> l[LeftCol(c)] == r[RightCol(c)]
    {
      if forall c :: c in equi ==> l[LeftCol(c)] == r[RightCol(c)] {
        SameKey(equi, l, r, floatBytes);
      }
      if equi != [] && BuildKey(equi, l, true, floatBytes) == BuildKey(equi, r, false, floatBytes) {
        assert equi[0] in equi;
        FirstPart(l[LeftCol(equi[0])], r[RightCol(equi[0])], floatBytes,
                  BuildKey(equi[1..], l, true, floatBytes), BuildKey(equi[1..], r, false, floatBytes));
        SameKeyIff(equi[1..], l, r, floatBytes);
      }
    }

    function HashingOf(conds: seq<Condition>, jt: JoinType, pad: Row, floatBytes: real -> seq<int>): HashProbe.Hashing {
      var equi := EquiConds(conds);
      HashProbe.Hashing(ConditionJoin(conds, jt, pad),
                        (row: Row) => BuildKey(equi, row, true, floatBytes),
                        (row: Row) => BuildKey(equi, row, false, floatBytes))
    }

    /** Because the conditions checked include every equi-condition, rows that match have the same
        key, and the bucket of a key holds every partner. */
    lemma HashKeysFit(conds: seq<Condition>, jt: JoinType, pad: Row, floatBytes: real -> seq<int>, left: seq<Row>, right: seq<Row>)
      requires Valid() && Crossing(EquiConds(conds)) && Fit(left, right)
      ensures HashingOf(conds, jt, pad, floatBytes).KeysFit(left, right)
    {
      var h := HashingOf(conds, jt, pad, floatBytes);
      forall i, j | 0 <= i < |left| && 0 <= j < |right| && h.join.matches(left[i], right[j])
        ensures h.leftKey(left[i]) == h.rightKey(right[j])
      {
        AllEquiHold(conds, left[i], right[j]);
        SameKey(EquiConds(conds), left[i], right[j], floatBytes);
      }
    }

    lemma AllEquiHold(conds: seq<Condition>, l: Row, r: Row)
      requires Valid() && Crossing(EquiConds(conds)) && l.Keys == leftCols && r.Keys == rightCols
      requires AllHold(conds, l, r)
      ensures forall c :: c in EquiConds(conds) ==> l[LeftCol(c)] == r[RightCol(c)]
    {
      forall c | c in EquiConds(conds) ensures l[LeftCol(c)] == r[RightCol(c)] {
        var i :| 0 <= i < |conds| && conds[i] == c;
        EquiHolds(c, l, r);
      }
    }

    // ---- the merge key ------------------------------------------------------

    /** The comparison of the merge join: the first equi-condition whose columns differ decides. */
    function CompareKeys(equi: seq<Condition>, l: Row, r: Row): int
      requires forall c :: c in equi ==> c.lhs in l.Keys + r.Keys && c.rhs in l.Keys + r.Keys
    {
      if equi == [] then 0
      else
        assert equi[0] in equi;
        var cmp := MergeSpec.Cmp(Field(l, r, equi[0].lhs), Field(l, r, equi[0].rhs));
        if cmp != 0 then cmp else CompareKeys(equi[1..], l, r)
    }

    /** All equi-conditions are one condition, possibly repeated: the analyzer lists an ON
        condition once with its table and once more among the WHERE conditions. */
    ghost predicate OneKey(equi: seq<Condition>) {
      forall c, d :: c in equi && d in equi ==> c.lhs == d.lhs && c.rhs == d.rhs
    }

    /** The sides are sorted by the columns of the first equi-condition; without one the keys
        compare equal. */
    function MergingOf(conds: seq<Condition>, pad: Row): MergeSpec.Merging {
      var equi := EquiConds(conds);
      var join := ConditionJoin(conds, Inner, pad);
      if equi == [] then MergeSpec.Merging(join, (row: Row) => IntV(0), (row: Row) => IntV(0), true)
      else
        var a, b := LeftCol(equi[0]), RightCol(equi[0]);
        MergeSpec.Merging(join, (row: Row) => if a in row then row[a] else IntV(0),
                          (row: Row) => if b in row then row[b] else IntV(0), LhsIsLeft(equi[0]))
    }

    lemma {:induction false} OneKeyCompares(equi: seq<Condition>, l: Row, r: Row)
      requires Valid() && Crossing(equi) && OneKey(equi) && equi != [] && l.Keys == leftCols && r.Keys == rightCols
      ensures CompareKeys(equi, l, r) ==
              MergeSpec.Cmp(Field(l, r, equi[0].lhs), Field(l, r, equi[0].rhs))
    {
      assert equi[0] in equi;
      if |equi| > 1 {
        assert equi[1] in equi;
        OneKeyCompares(equi[1..], l, r);
      }
    }

    /** With one key column per side the code's comparison is the one the merge is proved for. */
    lemma MergeCompares(conds: seq<Condition>, pad: Row, l: Row, r: Row)
      requires Valid() && Crossing(EquiConds(conds)) && OneKey(EquiConds(conds))
      requires l.Keys == leftCols && r.Keys == rightCols
      ensures CompareKeys(EquiConds(conds), l, r) == MergingOf(conds, pad).CompareKeys(l, r)
    {
      var equi := EquiConds(conds);
      if equi != [] {
        assert equi[0] in equi;
        OneKeyCompares(equi, l, r);
      }
    }

    lemma MergeKeysFit(conds: seq<Condition>, pad: Row, left: seq<Row>, right: seq<Row>)
      requires Valid() && Crossing(EquiConds(conds)) && Fit(left, right)
      ensures MergingOf(conds, pad).KeysFit(left, right)
    {
      var m := MergingOf(conds, pad);
      forall i, j | 0 <= i < |left| && 0 <= j < |right| && m.join.matches(left[i], right[j])
        ensures m.CompareKeys(left[i], right[j]) == 0
      {
        AllEquiHold(conds, left[i], right[j]);
        if EquiConds(conds) != [] {
          assert EquiConds(conds)[0] in EquiConds(conds);
          MergeSpec.CmpOrder(m.leftKey(left[i]), m.rightKey(right[j]), m.leftKey(left[i]));
        }
      }
    }
  }

  /** The join by a list of conditions. */
  function ConditionJoin(conds: seq<Condition>, jt: JoinType, pad: Row): Join {
    Join((l: Row, r: Row) => AllHold(conds, l, r), jt, pad)
  }
}
