/** Flattening a condition tree to the list of conditions that scans check. */
module CondTree {
  import opened Conditions
  import opened SeqScan

  /** The left side of a comparison: a column, an aggregate's column name, an arithmetic expression
      (of which only the first column is kept), or anything else. */
  datatype Lhs = LCol(col: Col) | LAgg(name: string) | LArith(first: Col) | LOther

  /** The right side: a literal, a column, or something the analyzer does not take. */
  datatype Rhs = RVal(v: Value) | RCol(col: Col) | ROther

  datatype CondExpr =
    | And(args: seq<CondExpr>)
    | Or(args: seq<CondExpr>)
    | Not(arg: CondExpr)
    | Binary(lhs: Lhs, op: CompOp, rhs: Rhs)
    | NullTest(col: Col, isNull: bool)
    | Like(col: Col, notLike: bool, pattern: seq<int>)
    | Between(col: Col, notBetween: bool, low: Value, high: Value)
    | InList(col: Col, notIn: bool, values: seq<Value>)

  const NO_COL: Col := Col("", "")
  const NO_VALUE: Value := IntV(0)

  function Leaf(lhs: Col, op: CompOp, isRhsVal: bool, rhs: Col, v: Value, v2: Value, vs: seq<Value>, arith: bool): Condition {
    Condition(lhs, op, isRhsVal, rhs, v, v2, vs, arith, [])
  }

  function Node(op: CompOp, children: seq<Condition>): Condition {
    Condition(NO_COL, op, false, NO_COL, NO_VALUE, NO_VALUE, [], false, children)
  }

  function LhsCol(l: Lhs): Col {
    match l
    case LCol(c) => c
    case LAgg(name) => Col("", name)
    case LArith(c) => c
    case LOther => NO_COL
  }

  // ---- flattening -----------------------------------------------------------------

  /** The list a tree adds to the output. A comparison with an unsupported right side adds nothing. */
  function Traverse(n: CondExpr): seq<Condition>
    decreases n, 0
  {
    match n
    case And(args) => TraverseAll(args)
    case Or(args) => [Node(OpOr, OrChildren(args))]
    case Not(arg) =>
      var list := Traverse(arg);
      [Node(OpNot, [if |list| == 1 then list[0] else Node(OpEq, list)])]
    case Binary(lhs, op, rhs) =>
      if rhs.RVal? then [Leaf(LhsCol(lhs), op, true, NO_COL, rhs.v, NO_VALUE, [], lhs.LArith?)]
      else if rhs.RCol? then [Leaf(LhsCol(lhs), op, false, rhs.col, NO_VALUE, NO_VALUE, [], lhs.LArith?)]
      else []
    case NullTest(col, isNull) => [Leaf(col, if isNull then OpIsNull else OpIsNotNull, false, NO_COL, NO_VALUE, NO_VALUE, [], false)]
    case Like(col, notLike, pattern) =>
      [Leaf(col, if notLike then OpNotLike else OpLike, true, NO_COL, StrV(pattern), NO_VALUE, [], false)]
    case Between(col, notBetween, low, high) =>
      [Leaf(col, if notBetween then OpNotBetween else OpBetween, true, NO_COL, low, high, [], false)]
    case InList(col, notIn, values) =>
      [Leaf(col, if notIn then OpNotIn else OpIn, false, NO_COL, NO_VALUE, NO_VALUE, values, false)]
  }

  function TraverseAll(args: seq<CondExpr>): seq<Condition>
    decreases args, 1
  {
    if args == [] then [] else Traverse(args[0]) + TraverseAll(args[1..])
  }

  /** One child for each argument of an OR that adds something; several conditions are wrapped in
      a placeholder whose operator is an equality of no columns. */
  function OrChildren(args: seq<CondExpr>): seq<Condition>
    decreases args, 1
  {
    if args == [] then [] else OrChild(Traverse(args[0])) + OrChildren(args[1..])
  }

  function OrChild(list: seq<Condition>): seq<Condition> {
    if |list| <= 1 then list else [Node(OpEq, list)]
  }

  // ---- the tree's own meaning --------------------------------------------------------

  /** The columns a tree mentions are in the row, and its comparisons are ones. */
  predicate Evaluable(n: CondExpr, row: Row) {
    match n
    case And(args) => forall i :: 0 <= i < |args| ==> Evaluable(args[i], row)
    case Or(args) => forall i :: 0 <= i < |args| ==> Evaluable(args[i], row)
    case Not(arg) => Evaluable(arg, row)
    case Binary(lhs, op, rhs) =>
      lhs.LCol? && lhs.col in row && IsComparison(op) && (rhs.RVal? || (rhs.RCol? && rhs.col in row))
    case NullTest(col, _) => col in row
    case Like(col, _, _) => col in row && row[col].StrV?
    case Between(col, _, _, _) => col in row
    case InList(col, _, _) => col in row
  }

  /** Direct evaluation of the tree on a row. */
  predicate Eval(n: CondExpr, row: Row)
    requires Evaluable(n, row)
  {
    match n
    case And(args) => forall i :: 0 <= i < |args| ==> Eval(args[i], row)
    case Or(args) => exists i :: 0 <= i < |args| && Eval(args[i], row)
    case Not(arg) => !Eval(arg, row)
    case Binary(lhs, op, rhs) => Holds(op, CompareTo(row[lhs.col], if rhs.RVal? then rhs.v else row[rhs.col]))
    case NullTest(col, isNull) => IsNull(row[col]) <==> isNull
    case Like(col, notLike, pattern) => LikeMatch(row[col].s, pattern) <==> !notLike
    case Between(col, notBetween, low, high) => (CompareTo(low, row[col]) <= 0 && CompareTo(row[col], high) <= 0) <==> !notBetween
    case InList(col, notIn, values) => (exists v :: v in values && CompareTo(v, row[col]) == 0) <==> !notIn
  }

  // ---- what the flattened list means --------------------------------------------------

  /** What checking the flattened list comes to: an argument that flattens to several conditions
      counts as true. */
  predicate AsFlattened(n: CondExpr, row: Row)
    requires Evaluable(n, row)
  {
    match n
    case And(args) => forall i :: 0 <= i < |args| ==> AsFlattened(args[i], row)
    case Or(args) =>
      || (forall i :: 0 <= i < |args| ==> Traverse(args[i]) == [])
      || (exists i :: 0 <= i < |args| && Traverse(args[i]) != [] && (|Traverse(args[i])| == 1 ==> AsFlattened(args[i], row)))
    case Not(arg) => |Traverse(arg)| == 1 && !AsFlattened(arg, row)
    case _ => Eval(n, row)
  }

  lemma CheckConcat(a: seq<Condition>, b: seq<Condition>, row: Row)
    ensures CheckAllConds(a + b, row) <==> CheckAllConds(a, row) && CheckAllConds(b, row)
  {
    if CheckAllConds(a + b, row) {
      forall i | 0 <= i < |a| ensures EvalCond(a[i], row) { assert (a + b)[i] == a[i]; }
      forall i | 0 <= i < |b| ensures EvalCond(b[i], row) { assert (a + b)[|a| + i] == b[i]; }
    }
  }

  /** The placeholder names no column of the row, so it holds. */
  lemma PlaceholderHolds(list: seq<Condition>, row: Row)
    requires NO_COL !in row
    ensures EvalCond(Node(OpEq, list), row)
  {
  }

  lemma CompareToFlips(a: Value, b: Value)
    ensures CompareTo(a, b) == 0 <==> CompareTo(b, a) == 0
    ensures CompareTo(a, b) <= 0 <==> CompareTo(b, a) >= 0
  {
    if a.Type() == b.Type() { CompareOrder(a, b, a); CompareOrder(b, a, b); }
  }

  /** A leaf becomes one condition without children, on its column; the right side is a value where a
      literal, a pattern or bounds stand there, and only an arithmetic left side is marked. */
  lemma LeafIs(n: CondExpr)
    requires !n.And? && !n.Or? && !n.Not? && (n.Binary? ==> !n.rhs.ROther?)
    ensures |Traverse(n)| == 1
    ensures var c := Traverse(n)[0];
            && c.children == [] && c.lhs == (if n.Binary? then LhsCol(n.lhs) else n.col)
            && (c.isRhsVal <==> n.Like? || n.Between? || (n.Binary? && n.rhs.RVal?))
            && (c.isArith <==> n.Binary? && n.lhs.LArith?)
            && c.rhs == (if n.Binary? && n.rhs.RCol? then n.rhs.col else NO_COL)
  {
  }

  lemma LeafMeans(n: CondExpr, row: Row)
    requires Evaluable(n, row) && !n.And? && !n.Or? && !n.Not?
    ensures |Traverse(n)| == 1 && (EvalCond(Traverse(n)[0], row) <==> Eval(n, row))
  {
    match n
    case Between(col, _, low, high) =>
      CompareToFlips(low, row[col]);
    case InList(col, _, values) =>
      forall v ensures CompareTo(v, row[col]) == 0 <==> CompareTo(row[col], v) == 0 { CompareToFlips(v, row[col]); }
      assert Traverse(n)[0].inValues == values;
      assert (exists v :: v in values && CompareTo(v, row[col]) == 0) <==>
             exists i :: 0 <= i < |values| && CompareTo(row[col], values[i]) == 0;
    case _ =>
  }

  lemma OrMeans(args: seq<CondExpr>, row: Row)
    requires forall i :: 0 <= i < |args| ==> Evaluable(args[i], row)
    ensures AsFlattened(Or(args), row) <==> NoneAdds(args) || AnyCounts(args, row)
  {
  }

  /** For every tree: the list holds exactly when the tree does with its placeholders taken as true. */
  lemma {:induction false} FlattenedMeans(n: CondExpr, row: Row)
    requires Evaluable(n, row) && NO_COL !in row
    ensures CheckAllConds(Traverse(n), row) <==> AsFlattened(n, row)
    decreases n, 0
  {
    match n
    case And(args) => AllMean(args, row);
    case Or(args) =>
      ChildrenMean(args, row);
      OrMeans(args, row);
      OneCond(Node(OpOr, OrChildren(args)), row);
    case Not(arg) =>
      FlattenedMeans(arg, row);
      var list := Traverse(arg);
      var child := if |list| == 1 then list[0] else Node(OpEq, list);
      if |list| != 1 { PlaceholderHolds(list, row); } else { OneCond(list[0], row); assert list == [list[0]]; }
      assert EvalCond(Node(OpNot, [child]), row) <==> !EvalCond([child][0], row);
      OneCond(Node(OpNot, [child]), row);
    case _ =>
      LeafMeans(n, row);
      assert Traverse(n) == [Traverse(n)[0]];
      OneCond(Traverse(n)[0], row);
  }

  lemma OneCond(c: Condition, row: Row)
    ensures CheckAllConds([c], row) <==> EvalCond(c, row)
  {
    assert [c][0] == c;
  }

  lemma {:induction false} AllMean(args: seq<CondExpr>, row: Row)
    requires NO_COL !in row && forall i :: 0 <= i < |args| ==> Evaluable(args[i], row)
    ensures CheckAllConds(TraverseAll(args), row) <==> forall i :: 0 <= i < |args| ==> AsFlattened(args[i], row)
    decreases args, 1
  {
    if args != [] {
      FlattenedMeans(args[0], row);
      AllMean(args[1..], row);
      CheckConcat(Traverse(args[0]), TraverseAll(args[1..]), row);
      assert forall i :: 0 < i < |args| ==> args[i] == args[1..][i - 1];
      assert forall i :: 0 <= i < |args[1..]| ==> args[1..][i] == args[i + 1];
    }
  }

  ghost predicate SomeHolds(cs: seq<Condition>, row: Row) {
    exists i :: 0 <= i < |cs| && EvalCond(cs[i], row)
  }

  ghost predicate ArgCounts(n: CondExpr, row: Row)
    requires Evaluable(n, row)
  {
    Traverse(n) != [] && (|Traverse(n)| == 1 ==> AsFlattened(n, row))
  }

  lemma ChildMeans(n: CondExpr, row: Row)
    requires NO_COL !in row && Evaluable(n, row) && (CheckAllConds(Traverse(n), row) <==> AsFlattened(n, row))
    ensures SomeHolds(OrChild(Traverse(n)), row) <==> ArgCounts(n, row)
  {
    var list := Traverse(n);
    if |list| == 1 {
      OneCond(list[0], row);
      assert list == [list[0]];
      assert EvalCond(list[0], row) <==> SomeHolds(list, row);
    } else if list != [] {
      PlaceholderHolds(list, row);
      assert EvalCond(OrChild(list)[0], row);
    }
  }

  ghost predicate AnyCounts(args: seq<CondExpr>, row: Row)
    requires forall i :: 0 <= i < |args| ==> Evaluable(args[i], row)
  {
    exists i :: 0 <= i < |args| && ArgCounts(args[i], row)
  }

  ghost predicate NoneAdds(args: seq<CondExpr>) {
    forall i :: 0 <= i < |args| ==> Traverse(args[i]) == []
  }

  lemma FirstOrRest(args: seq<CondExpr>, row: Row)
    requires args != [] && forall i :: 0 <= i < |args| ==> Evaluable(args[i], row)
    ensures AnyCounts(args, row) <==> ArgCounts(args[0], row) || AnyCounts(args[1..], row)
    ensures NoneAdds(args) <==> Traverse(args[0]) == [] && NoneAdds(args[1..])
  {
    var rest := args[1..];
    if i :| 0 <= i < |args| && ArgCounts(args[i], row) { assert i == 0 || rest[i - 1] == args[i]; }
    if i :| 0 <= i < |rest| && ArgCounts(rest[i], row) { assert args[i + 1] == rest[i]; }
    if NoneAdds(rest) { assert forall i :: 0 < i < |args| ==> args[i] == rest[i - 1]; }
    if NoneAdds(args) { assert forall i :: 0 <= i < |rest| ==> rest[i] == args[i + 1]; }
  }

  lemma {:induction false} ChildrenMean(args: seq<CondExpr>, row: Row)
    requires NO_COL !in row && forall i :: 0 <= i < |args| ==> Evaluable(args[i], row)
    ensures OrChildren(args) == [] <==> NoneAdds(args)
    ensures SomeHolds(OrChildren(args), row) <==> AnyCounts(args, row)
    decreases args, 1
  {
    if args != [] {
      FlattenedMeans(args[0], row);
      ChildMeans(args[0], row);
      ChildrenMean(args[1..], row);
      FirstOrRest(args, row);
      SomeHoldsConcat(OrChild(Traverse(args[0])), OrChildren(args[1..]), row);
    }
  }

  lemma SomeHoldsConcat(a: seq<Condition>, b: seq<Condition>, row: Row)
    ensures SomeHolds(a + b, row) <==> SomeHolds(a, row) || SomeHolds(b, row)
  {
    if i :| 0 <= i < |a| && EvalCond(a[i], row) { assert (a + b)[i] == a[i]; }
    if i :| 0 <= i < |b| && EvalCond(b[i], row) { assert (a + b)[|a| + i] == b[i]; }
  }

  // ---- when the meaning is kept ------------------------------------------------------------

  /** Every argument of OR and NOT flattens to exactly one condition. */
  predicate OneEach(n: CondExpr) {
    match n
    case And(args) => forall i :: 0 <= i < |args| ==> OneEach(args[i])
    case Or(args) => args != [] && forall i :: 0 <= i < |args| ==> |Traverse(args[i])| == 1 && OneEach(args[i])
    case Not(arg) => |Traverse(arg)| == 1 && OneEach(arg)
    case _ => true
  }

  lemma {:induction false} OneEachKeeps(n: CondExpr, row: Row)
    requires Evaluable(n, row) && OneEach(n)
    ensures AsFlattened(n, row) <==> Eval(n, row)
  {
    match n
    case And(args) =>
      forall i | 0 <= i < |args| ensures AsFlattened(args[i], row) <==> Eval(args[i], row) { OneEachKeeps(args[i], row); }
    case Or(args) =>
      forall i | 0 <= i < |args| ensures AsFlattened(args[i], row) <==> Eval(args[i], row) { OneEachKeeps(args[i], row); }
      assert Traverse(args[0]) != [];
    case Not(arg) => OneEachKeeps(arg, row);
    case _ =>
  }

  /** The list get_clause makes holds on a row exactly when the tree does. */
  lemma ClauseMeansTree(n: CondExpr, row: Row)
    requires Evaluable(n, row) && OneEach(n) && NO_COL !in row
    ensures CheckAllConds(Traverse(n), row) <==> Eval(n, row)
  {
    FlattenedMeans(n, row);
    OneEachKeeps(n, row);
  }

  /** An OR of which some argument flattens to several conditions holds on every row, so it is
      right exactly on the rows the tree holds on. */
  lemma OrOverAndIff(args: seq<CondExpr>, row: Row, i: nat)
    requires Evaluable(Or(args), row) && NO_COL !in row && i < |args| && |Traverse(args[i])| > 1
    ensures (CheckAllConds(Traverse(Or(args)), row) <==> Eval(Or(args), row)) <==> Eval(Or(args), row)
  {
    FlattenedMeans(Or(args), row);
    assert Traverse(args[i]) != [];
  }

  /** A NOT of several conditions holds on no row. */
  lemma NotOverAndIff(arg: CondExpr, row: Row)
    requires Evaluable(Not(arg), row) && NO_COL !in row && |Traverse(arg)| != 1
    ensures (CheckAllConds(Traverse(Not(arg)), row) <==> Eval(Not(arg), row)) <==> Eval(arg, row)
  {
    FlattenedMeans(Not(arg), row);
  }

  /** NOT (a = 1 AND a = 2) is true of a = 3, and its flattened list is not. */
  lemma NotOverAndFails()
    ensures var a := Col("t", "a"); var row := map[a := IntV(3)];
            var n := Not(And([Binary(LCol(a), OpEq, RVal(IntV(1))), Binary(LCol(a), OpEq, RVal(IntV(2)))]));
            Evaluable(n, row) && Eval(n, row) && !CheckAllConds(Traverse(n), row)
  {
    var a := Col("t", "a");
    var row := map[a := IntV(3)];
    var x, y := Binary(LCol(a), OpEq, RVal(IntV(1))), Binary(LCol(a), OpEq, RVal(IntV(2)));
    var conj := And([x, y]);
    assert !Eval([x, y][0], row);
    assert !Eval(conj, row);
    assert [x, y][1..] == [y] && [y][1..] == [];
    assert TraverseAll([y]) == Traverse(y) + TraverseAll([]);
    assert TraverseAll([x, y]) == Traverse(x) + TraverseAll([y]);
    assert |Traverse(conj)| == 2;
    NotOverAndIff(conj, row);
  }
}
