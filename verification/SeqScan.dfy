/** What a condition list means to the table scan. */
module SeqScan {
  import opened Conditions

  /** Values compared by a condition have one type; the analyzer sees to it. */
  function CompareTo(a: Value, b: Value): int {
    if a.Type() == b.Type() then Compare(a, b) else 0
  }

  /** A condition about a column the row does not have holds. */
  predicate EvalCond(cond: Condition, row: Row)
    decreases cond
  {
    if cond.op.OpOr? then
      cond.children == [] || exists i :: 0 <= i < |cond.children| && EvalCond(cond.children[i], row)
    else if cond.op.OpNot? then
      forall i :: 0 <= i < |cond.children| ==> !EvalCond(cond.children[i], row)
    else if cond.lhs !in row then true
    else EvalLeaf(cond, row[cond.lhs], row)
  }

  predicate EvalLeaf(cond: Condition, v: Value, row: Row) {
    match cond.op
    case OpIsNull => IsNull(v)
    case OpIsNotNull => !IsNull(v)
    case OpLike => v.StrV? && cond.rhsVal.StrV? && LikeMatch(v.s, cond.rhsVal.s)
    case OpNotLike => !(v.StrV? && cond.rhsVal.StrV? && LikeMatch(v.s, cond.rhsVal.s))
    case OpBetween => CompareTo(v, cond.rhsVal) >= 0 && CompareTo(v, cond.rhsVal2) <= 0
    case OpNotBetween => !(CompareTo(v, cond.rhsVal) >= 0 && CompareTo(v, cond.rhsVal2) <= 0)
    case OpIn => exists i :: 0 <= i < |cond.inValues| && CompareTo(v, cond.inValues[i]) == 0
    case OpNotIn => !exists i :: 0 <= i < |cond.inValues| && CompareTo(v, cond.inValues[i]) == 0
    case _ =>
      if cond.isRhsVal then Holds(cond.op, CompareTo(v, cond.rhsVal))
      else if cond.rhs !in row then true
      else Holds(cond.op, CompareTo(v, row[cond.rhs]))
  }

  predicate CheckAllConds(conds: seq<Condition>, row: Row) {
    forall i :: 0 <= i < |conds| ==> EvalCond(conds[i], row)
  }

  /** The rows a scan of a table yields. */
  function Scan(conds: seq<Condition>, rows: seq<Row>): seq<Row> {
    if rows == [] then []
    else (if CheckAllConds(conds, rows[0]) then [rows[0]] else []) + Scan(conds, rows[1..])
  }
}
