/** What the condition evaluators decide, said without their comparison functions: numbers are
    compared as numbers, strings by the first byte that differs. */
module ConditionMeaning {
  import opened CharColumns
  import opened CondTree
  import opened Conditions
  import opened JoinSpec
  import opened SeqScan

  // ---- the order of values ----------------------------------------------------------

  /** At `k` the first difference of two strings makes `a` the smaller one: it ends there, or has the
      smaller byte. */
  predicate SmallerAt(a: seq<int>, b: seq<int>, k: int) {
    && 0 <= k <= |a| && k < |b| && a[..k] == b[..k]
    && (k == |a| || a[k] < b[k])
  }

  ghost predicate BytesLess(a: seq<int>, b: seq<int>) {
    exists k :: SmallerAt(a, b, k)
  }

  lemma {:induction false} CompareBytesLess(a: seq<int>, b: seq<int>)
    ensures CompareBytes(a, b) < 0 <==> BytesLess(a, b)
  {
    forall k | SmallerAt(a, b, k) && k > 0 ensures a[0] == b[0] {
      assert a[..k][0] == a[0] && b[..k][0] == b[0];
    }
    if a == [] || b == [] || a[0] != b[0] {
      assert b != [] && (a == [] || a[0] < b[0]) ==> SmallerAt(a, b, 0);
    } else {
      CompareBytesLess(a[1..], b[1..]);
      LessFromTail(a, b);
    }
  }

  /** A first byte in common decides nothing. */
  lemma LessFromTail(a: seq<int>, b: seq<int>)
    requires a != [] && b != [] && a[0] == b[0]
    ensures BytesLess(a, b) <==> BytesLess(a[1..], b[1..])
  {
    if k :| SmallerAt(a[1..], b[1..], k) {
      assert a[..k + 1] == [a[0]] + a[1..][..k] && b[..k + 1] == [b[0]] + b[1..][..k];
      assert SmallerAt(a, b, k + 1);
    }
    if k :| SmallerAt(a, b, k) {
      assert k > 0;
      assert a[1..][..k - 1] == a[..k][1..] && b[1..][..k - 1] == b[..k][1..];
      assert SmallerAt(a[1..], b[1..], k - 1);
    }
  }

  ghost predicate Less(a: Value, b: Value) {
    || (a.IntV? && b.IntV? && a.i < b.i)
    || (a.FloatV? && b.FloatV? && a.r < b.r)
    || (a.StrV? && b.StrV? && BytesLess(a.s, b.s))
  }

  /** What an operator says of two values. */
  ghost predicate Says(op: CompOp, a: Value, b: Value) {
    match op
    case OpEq => a == b
    case OpNe => a != b
    case OpLt => Less(a, b)
    case OpGt => Less(b, a)
    case OpLe => a == b || Less(a, b)
    case OpGe => a == b || Less(b, a)
    case _ => false
  }

  lemma CompareSays(op: CompOp, a: Value, b: Value)
    requires a.Type() == b.Type()
    ensures Holds(op, Compare(a, b)) <==> Says(op, a, b)
    ensures Compare(a, b) <= 0 <==> a == b || Less(a, b)
    ensures Compare(a, b) >= 0 <==> a == b || Less(b, a)
  {
    CompareOrder(a, b, a);
    CompareOrder(b, a, b);
    if a.StrV? {
      CompareBytesLess(a.s, b.s);
      CompareBytesLess(b.s, a.s);
    }
  }

  /** On integers the six operators say what they say of integers ... */
  lemma OnInts(op: CompOp, x: int, y: int)
    requires IsComparison(op)
    ensures Holds(op, Compare(IntV(x), IntV(y))) <==>
            (op.OpEq? && x == y) || (op.OpNe? && x != y) || (op.OpLt? && x < y) || (op.OpGt? && x > y)
            || (op.OpLe? && x <= y) || (op.OpGe? && x >= y)
  {
    CompareSays(op, IntV(x), IntV(y));
  }

  /** ... and on floats what they say of numbers. */
  lemma OnFloats(op: CompOp, x: real, y: real)
    requires IsComparison(op)
    ensures Holds(op, Compare(FloatV(x), FloatV(y))) <==>
            (op.OpEq? && x == y) || (op.OpNe? && x != y) || (op.OpLt? && x < y) || (op.OpGt? && x > y)
            || (op.OpLe? && x <= y) || (op.OpGe? && x >= y)
  {
    CompareSays(op, FloatV(x), FloatV(y));
  }

  // ---- the table scan -----------------------------------------------------------------

  /** What a condition is about has the type of the column. */
  predicate Typed(cond: Condition, row: Row) {
    && cond.lhs in row
    && var v := row[cond.lhs];
    match cond.op
    case OpIsNull => true
    case OpIsNotNull => true
    case OpLike => v.StrV? && cond.rhsVal.StrV?
    case OpNotLike => v.StrV? && cond.rhsVal.StrV?
    case OpBetween => v.Type() == cond.rhsVal.Type() == cond.rhsVal2.Type()
    case OpNotBetween => v.Type() == cond.rhsVal.Type() == cond.rhsVal2.Type()
    case OpIn => forall i :: 0 <= i < |cond.inValues| ==> cond.inValues[i].Type() == v.Type()
    case OpNotIn => forall i :: 0 <= i < |cond.inValues| ==> cond.inValues[i].Type() == v.Type()
    case OpOr => false
    case OpNot => false
    case _ => if cond.isRhsVal then v.Type() == cond.rhsVal.Type() else cond.rhs in row && v.Type() == row[cond.rhs].Type()
  }

  ghost predicate Within(v: Value, low: Value, high: Value) {
    (low == v || Less(low, v)) && (v == high || Less(v, high))
  }

  /** The scan keeps a row on a comparison exactly if the comparison is true of the two values; on
      BETWEEN if the value is neither below the first bound nor above the second; on IN if the value
      is in the list. */
  lemma ScanDecides(cond: Condition, row: Row)
    requires Typed(cond, row)
    ensures IsComparison(cond.op) ==>
              (EvalCond(cond, row) <==> Says(cond.op, row[cond.lhs], if cond.isRhsVal then cond.rhsVal else row[cond.rhs]))
    ensures cond.op.OpBetween? ==> (EvalCond(cond, row) <==> Within(row[cond.lhs], cond.rhsVal, cond.rhsVal2))
    ensures cond.op.OpNotBetween? ==> (EvalCond(cond, row) <==> !Within(row[cond.lhs], cond.rhsVal, cond.rhsVal2))
    ensures cond.op.OpIn? ==> (EvalCond(cond, row) <==> row[cond.lhs] in cond.inValues)
    ensures cond.op.OpNotIn? ==> (EvalCond(cond, row) <==> row[cond.lhs] !in cond.inValues)
  {
    var v := row[cond.lhs];
    if IsComparison(cond.op) {
      CompareSays(cond.op, v, if cond.isRhsVal then cond.rhsVal else row[cond.rhs]);
    } else if cond.op.OpBetween? || cond.op.OpNotBetween? {
      CompareSays(OpGe, v, cond.rhsVal);
      CompareSays(OpLe, v, cond.rhsVal2);
    } else if cond.op.OpIn? || cond.op.OpNotIn? {
      forall i | 0 <= i < |cond.inValues| ensures CompareTo(v, cond.inValues[i]) == 0 <==> v == cond.inValues[i] {
        CompareOrder(v, cond.inValues[i], v);
      }
    }
  }

  /** A comparison of a condition tree says the same. */
  lemma TreeDecides(lhs: Lhs, op: CompOp, rhs: Rhs, row: Row)
    requires Evaluable(Binary(lhs, op, rhs), row)
    requires rhs.RVal? ==> row[lhs.col].Type() == rhs.v.Type()
    requires rhs.RCol? ==> row[lhs.col].Type() == row[rhs.col].Type()
    ensures Eval(Binary(lhs, op, rhs), row) <==> Says(op, row[lhs.col], if rhs.RVal? then rhs.v else row[rhs.col])
  {
    CompareSays(op, row[lhs.col], if rhs.RVal? then rhs.v else row[rhs.col]);
  }

  // ---- the joins ------------------------------------------------------------------------

  /** The join of two rows finds a column in the left row, or else in the right one. */
  ghost predicate Finds(l: Row, r: Row, c: Col, v: Value) {
    if c in l then v == l[c] else c in r && v == r[c]
  }

  /** A join condition on two columns of one type is true of exactly the values the two rows have; on
      columns of two types it is never true. */
  lemma PairDecides(cond: Condition, l: Row, r: Row, a: Value, b: Value)
    requires IsComparison(cond.op) && !cond.isRhsVal
    requires Finds(l, r, cond.lhs, a) && Finds(l, r, cond.rhs, b)
    ensures JoinCond(cond, l.Keys + r.Keys)
    ensures EvalPair(cond, l, r) <==> a.Type() == b.Type() && Says(cond.op, a, b)
  {
    if a.Type() == b.Type() { CompareSays(cond.op, a, b); }
  }

  /** Comparing the bytes of columns of one length decides the same. */
  lemma BytesDecide(chars: Chars, cond: Condition, l: Row, r: Row, a: Value, b: Value)
    requires IsComparison(cond.op) && !cond.isRhsVal && chars.Fits(cond) && chars.RowOk(l) && chars.RowOk(r)
    requires Finds(l, r, cond.lhs, a) && Finds(l, r, cond.rhs, b)
    ensures JoinCond(cond, l.Keys + r.Keys)
    ensures chars.EvalBytes(cond, l, r) <==> a.Type() == b.Type() && Says(cond.op, a, b)
  {
    PairDecides(cond, l, r, a, b);
    chars.EvalIsWhole(cond, l, r);
  }

  // ---- null tests ---------------------------------------------------------------------------

  /** The value that an outer join pads a column with: zero bytes. */
  function Pad(t: ColType): Value {
    match t
    case TypeInt => IntV(0)
    case TypeFloat => FloatV(0.0)
    case TypeString => StrV([])
  }

  /** An INT is null when it is the smallest of its 32 bits; a FLOAT or a string is null when it is
      what an outer join pads with. So padding tests as null except in INT columns. */
  lemma NullTests(v: Value)
    ensures v.IntV? ==> (IsNull(v) <==> v == IntV(-2147483648))
    ensures !v.IntV? ==> (IsNull(v) <==> v == Pad(v.Type()))
    ensures forall t :: IsNull(Pad(t)) <==> t != TypeInt
  {
  }
}
