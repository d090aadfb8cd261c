/** Joins of two base tables: the condition evaluator, the relational join, and a child executor. */
module JoinSpec {
  import opened Conditions

  /** RIGHT joins reach the executors as LEFT joins with their sides swapped. */
  datatype JoinType = Inner | LeftOuter

  // ---- conditions on a pair of rows ---------------------------------------

  /** A column is looked up by its full name, the left row first. */
  function Field(l: Row, r: Row, c: Col): Value
    requires c in l || c in r
  {
    if c in l then l[c] else r[c]
  }

  /** What the join evaluators support: comparisons of two columns, null tests, OR and NOT. */
  predicate JoinCond(cond: Condition, cols: set<Col>)
    decreases cond
  {
    if cond.op.OpOr? || cond.op.OpNot? then
      forall i :: 0 <= i < |cond.children| ==> JoinCond(cond.children[i], cols)
    else
      && cond.lhs in cols
      && (cond.op.OpIsNull? || cond.op.OpIsNotNull? || (IsComparison(cond.op) && !cond.isRhsVal && cond.rhs in cols))
  }

  predicate EvalPair(cond: Condition, l: Row, r: Row)
    requires JoinCond(cond, l.Keys + r.Keys)
    decreases cond
  {
    if cond.op.OpOr? then
      cond.children == [] || exists i :: 0 <= i < |cond.children| && EvalPair(cond.children[i], l, r)
    else if cond.op.OpNot? then
      forall i :: 0 <= i < |cond.children| ==> !EvalPair(cond.children[i], l, r)
    else
      var a := Field(l, r, cond.lhs);
      if cond.op.OpIsNull? then IsNull(a)
      else if cond.op.OpIsNotNull? then !IsNull(a)
      else
        var b := Field(l, r, cond.rhs);
        a.Type() == b.Type() && Holds(cond.op, Compare(a, b))
  }

  /** The conjunction an executor checks on a pair of rows. */
  predicate AllHold(conds: seq<Condition>, l: Row, r: Row) {
    forall i :: 0 <= i < |conds| ==> JoinCond(conds[i], l.Keys + r.Keys) && EvalPair(conds[i], l, r)
  }

  // ---- the relational join ------------------------------------------------

  /** A join: when two rows belong together, its type, and the zeroed right row that pads an
      unmatched left row. */
  datatype Join = Join(matches: (Row, Row) -> bool, jt: JoinType, pad: Row) {

    /** The joined rows of one left row, in the order of the right input. */
    function Partners(l: Row, right: seq<Row>): seq<Row> {
      if right == [] then []
      else (if matches(l, right[0]) then [l + right[0]] else []) + Partners(l, right[1..])
    }

    /** What one left row contributes. */
    function Block(l: Row, right: seq<Row>): seq<Row> {
      var ps := Partners(l, right);
      if ps == [] && jt.LeftOuter? then [l + pad] else ps
    }

    /** The join of two inputs, left row by left row. */
    function Rows(left: seq<Row>, right: seq<Row>): seq<Row> {
      if left == [] then [] else Block(left[0], right) + Rows(left[1..], right)
    }

    // ---- the join from some point on --------------------------------------

    /** What left row `l` still contributes when only the right rows `rest` are to come and
        `hasMatch` tells whether it has contributed before. */
    function RestOfBlock(l: Row, rest: seq<Row>, hasMatch: bool): seq<Row> {
      var ps := Partners(l, rest);
      if ps == [] && !hasMatch && jt.LeftOuter? then [l + pad] else ps
    }

    /** All output due when left row `i` is current and the right rows before `j` are done. */
    function RestFrom(left: seq<Row>, right: seq<Row>, i: nat, j: nat, hasMatch: bool): seq<Row>
      requires i < |left| && j <= |right|
    {
      RestOfBlock(left[i], right[j..], hasMatch) + Rows(left[i + 1..], right)
    }

    lemma BlockPastRight(l: Row, rest: seq<Row>, hasMatch: bool)
      requires rest != []
      ensures RestOfBlock(l, rest, hasMatch) ==
              if matches(l, rest[0]) then [l + rest[0]] + RestOfBlock(l, rest[1..], true) else RestOfBlock(l, rest[1..], hasMatch)
    {
    }

    lemma PastRight(left: seq<Row>, right: seq<Row>, i: nat, j: nat, hasMatch: bool)
      requires i < |left| && j < |right|
      ensures RestFrom(left, right, i, j, hasMatch) ==
              if matches(left[i], right[j]) then [left[i] + right[j]] + RestFrom(left, right, i, j + 1, true)
              else RestFrom(left, right, i, j + 1, hasMatch)
    {
      BlockPastRight(left[i], right[j..], hasMatch);
      assert right[j..][1..] == right[j + 1..] && right[j..][0] == right[j];
      AssocOne(left[i] + right[j], RestOfBlock(left[i], right[j + 1..], true), Rows(left[i + 1..], right));
    }

    static lemma AssocOne(x: Row, a: seq<Row>, b: seq<Row>)
      ensures ([x] + a) + b == [x] + (a + b)
    {
    }

    /** With the right input used up an unmatched left row is padded in an outer join ... */
    lemma PadsUnmatched(left: seq<Row>, right: seq<Row>, i: nat)
      requires i < |left| && jt.LeftOuter?
      ensures RestFrom(left, right, i, |right|, false) == [left[i] + pad] + Rows(left[i + 1..], right)
    {
      assert right[|right|..] == [];
    }

    /** ... and otherwise the next left row follows. */
    lemma RightDone(left: seq<Row>, right: seq<Row>, i: nat, hasMatch: bool)
      requires i < |left| && (hasMatch || jt.Inner?)
      ensures RestFrom(left, right, i, |right|, hasMatch) == Rows(left[i + 1..], right)
      ensures i + 1 == |left| ==> Rows(left[i + 1..], right) == []
    {
      assert right[|right|..] == [];
      assert [] + Rows(left[i + 1..], right) == Rows(left[i + 1..], right);
    }

    /** The next left row starts with the whole right input. */
    lemma NextLeft(left: seq<Row>, right: seq<Row>, i: nat)
      requires i < |left|
      ensures Rows(left[i..], right) == RestFrom(left, right, i, 0, false)
    {
      assert right[0..] == right && left[i..][0] == left[i] && left[i..][1..] == left[i + 1..];
    }
  }

  // ---- a child executor ---------------------------------------------------

  /** A child yields a fixed sequence, restarts on `BeginTuple`, and stays ended at its end. */
  class Cursor {
    const rows: seq<Row>
    var pos: nat

    constructor (rows: seq<Row>)
      ensures this.rows == rows && pos == |rows|
    {
      this.rows := rows;
      pos := |rows|;
    }

    predicate IsEnd()
      reads this
    {
      pos >= |rows|
    }

    method BeginTuple()
      modifies this
      ensures pos == 0
    {
      pos := 0;
    }

    method NextTuple()
      modifies this
      ensures pos == if old(pos) < |rows| then old(pos) + 1 else old(pos)
    {
      if pos < |rows| { pos := pos + 1; }
    }

    function Next(): Row
      requires !IsEnd()
      reads this
    {
      rows[pos]
    }
  }
}
