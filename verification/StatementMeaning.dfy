/** What the plan of a statement on one table does with its conditions, columns and values. A SELECT's
    scan gets only the conditions that name the table; an OR or a NOT names none and is left out. */
module StatementMeaning {
  import opened ConditionMeaning
  import opened Conditions
  import opened PlanCache
  import opened SeqScan
  import opened StatementPlan
  import CondTree
  import Planner

  predicate IsGroup(c: Condition) {
    c.op.OpOr? || c.op.OpNot?
  }

  // ---- trees that mention columns of one table ----------------------------------------------

  predicate OwnCol(tab: string, c: Col) {
    c.name != "" && (c.tab == "" || c.tab == tab)
  }

  /** A tree over columns of `tab`, written with or without its name. */
  predicate OwnTree(tab: string, n: CondTree.CondExpr) {
    match n
    case And(args) => forall i :: 0 <= i < |args| ==> OwnTree(tab, args[i])
    case Or(args) => true
    case Not(arg) => true
    case Binary(lhs, op, rhs) =>
      IsComparison(op) && (lhs.LCol? || lhs.LArith?) && OwnCol(tab, CondTree.LhsCol(lhs)) && (rhs.RCol? ==> OwnCol(tab, rhs.col))
    case NullTest(col, _) => OwnCol(tab, col)
    case Like(col, _, _) => OwnCol(tab, col)
    case Between(col, _, _, _) => OwnCol(tab, col)
    case InList(col, _, _) => OwnCol(tab, col)
  }

  /** A condition as flattening makes it of such a tree; `tabs` are the table names it may carry. */
  predicate OwnCond(tabs: set<string>, c: Condition) {
    if IsGroup(c) then c.lhs == CondTree.NO_COL && c.rhs == CondTree.NO_COL
    else
      && c.lhs.name != "" && c.lhs.tab in tabs
      && (IsComparison(c.op) || (Planner.IsUnary(c.op) && !NeedsRight(c)))
      && if IsComparison(c.op) && !c.isRhsVal then c.rhs.name != "" && c.rhs.tab in tabs else c.rhs == CondTree.NO_COL
  }

  ghost predicate OwnConds(tabs: set<string>, cs: seq<Condition>) {
    forall c :: c in cs ==> OwnCond(tabs, c)
  }

  lemma {:induction false} FlattenedOwn(tab: string, n: CondTree.CondExpr)
    requires OwnTree(tab, n)
    ensures OwnConds({"", tab}, CondTree.Traverse(n))
    decreases n, 0
  {
    match n
    case And(args) => AllOwn(tab, args);
    case _ =>
  }

  lemma {:induction false} AllOwn(tab: string, args: seq<CondTree.CondExpr>)
    requires forall i :: 0 <= i < |args| ==> OwnTree(tab, args[i])
    ensures OwnConds({"", tab}, CondTree.TraverseAll(args))
    decreases args, 1
  {
    if args != [] {
      FlattenedOwn(tab, args[0]);
      AllOwn(tab, args[1..]);
    }
  }

  /** The check puts the table's name to every column. */
  lemma CheckedOwn(db: Catalog, tab: string, c: Condition, c': Condition)
    requires OwnCond({"", tab}, c) && CheckOne(db, tab, c) == Some(c')
    ensures OwnCond({tab}, c') && (IsGroup(c') <==> IsGroup(c))
  {
  }

  lemma {:induction false} ListOwn(db: Catalog, tab: string, cs: seq<Condition>, cs': seq<Condition>)
    requires OwnConds({"", tab}, cs) && CheckList(db, tab, cs) == Some(cs')
    ensures OwnConds({tab}, cs')
  {
    if cs != [] {
      CheckedOwn(db, tab, cs[0], CheckOne(db, tab, cs[0]).value);
      ListOwn(db, tab, cs[1..], CheckList(db, tab, cs[1..]).value);
    }
  }

  lemma ConditionsOwn(db: Catalog, tab: string, n: CondTree.CondExpr, cs: seq<Condition>)
    requires OwnTree(tab, n) && Checked(db, tab, Some(n)) == Some(cs)
    ensures OwnConds({tab}, cs)
  {
    FlattenedOwn(tab, n);
    ListOwn(db, tab, CondTree.Traverse(n), cs);
  }

  // ---- what the scan of a SELECT checks -------------------------------------------------------

  lemma ScannedAre(tab: string, cs: seq<Condition>, c: Condition)
    requires tab != "" && OwnConds({tab}, cs)
    ensures c in ScanConds(tab, cs) <==> c in cs && !IsGroup(c)
  {
    Planner.Selects(Planner.Reordered(cs), c => Planner.Pops(tab, c), c);
    Planner.ReorderedHas(cs, c);
    if c in cs { assert OwnCond({tab}, c); }
  }

  /** A row passes the conditions that are not groups. */
  ghost predicate Leaves(cs: seq<Condition>, row: Row) {
    forall c :: c in cs && !IsGroup(c) ==> EvalCond(c, row)
  }

  ghost predicate Groups(cs: seq<Condition>, row: Row) {
    forall c :: c in cs && IsGroup(c) ==> EvalCond(c, row)
  }

  lemma ScannedCheck(tab: string, cs: seq<Condition>, row: Row)
    requires tab != "" && OwnConds({tab}, cs)
    ensures CheckAllConds(ScanConds(tab, cs), row) <==> Leaves(cs, row)
    ensures CheckAllConds(cs, row) <==> Leaves(cs, row) && Groups(cs, row)
  {
    var sc := ScanConds(tab, cs);
    forall c ensures c in sc <==> c in cs && !IsGroup(c) { ScannedAre(tab, cs, c); }
    if CheckAllConds(sc, row) {
      forall c | c in cs && !IsGroup(c) ensures EvalCond(c, row) {
        var i :| 0 <= i < |sc| && sc[i] == c;
      }
    }
    if CheckAllConds(cs, row) {
      forall c | c in cs ensures EvalCond(c, row) {
        var i :| 0 <= i < |cs| && cs[i] == c;
      }
    }
  }

  lemma {:induction false} FewerRows(tab: string, cs: seq<Condition>, rows: seq<Row>)
    requires tab != "" && OwnConds({tab}, cs)
    ensures |Scan(cs, rows)| <= |Scan(ScanConds(tab, cs), rows)|
    ensures |Scan(cs, rows)| == |Scan(ScanConds(tab, cs), rows)| <==> forall row :: row in rows && Leaves(cs, row) ==> Groups(cs, row)
    ensures (forall row :: row in rows && Leaves(cs, row) ==> Groups(cs, row)) ==> Scan(cs, rows) == Scan(ScanConds(tab, cs), rows)
  {
    if rows != [] {
      ScannedCheck(tab, cs, rows[0]);
      FewerRows(tab, cs, rows[1..]);
      assert forall row :: row in rows <==> row == rows[0] || row in rows[1..];
    }
  }

  /** The scan below a SELECT of one table yields exactly the rows that pass the statement's checked
      conditions if and only if every row that passes the others passes each OR and NOT too. */
  lemma SelectedRowsIff(db: Catalog, tab: string, cols: seq<Col>, forUpdate: bool, n: CondTree.CondExpr, rows: seq<Row>,
                        cs: seq<Condition>, p: Plan<Bytes>)
    requires tab != "" && OwnTree(tab, n) && Checked(db, tab, Some(n)) == Some(cs)
    requires PlanOf(db, StatementPlan.Select([tab], cols, false, forUpdate, Some(n))) == Some(p)
    ensures p.sub.sub.tab == tab && p.sub.sub.conds == LiftedAll(db, ScanConds(tab, cs))
    ensures Scan(ScanConds(tab, cs), rows) == Scan(cs, rows) <==> forall row :: row in rows && Leaves(cs, row) ==> Groups(cs, row)
  {
    ConditionsOwn(db, tab, n, cs);
    FewerRows(tab, cs, rows);
  }

  /** An UPDATE's and a DELETE's scan gets all of them. */
  lemma ChangedRows(db: Catalog, tab: string, sets: seq<(string, Lit)>, cond: Option<CondTree.CondExpr>, cs: seq<Condition>)
    requires Checked(db, tab, cond) == Some(cs)
    ensures var p := PlanOf(db, Update(tab, sets, cond));
            p.Some? ==> p.value.sub.tab == tab && p.value.sub.conds == LiftedAll(db, cs)
    ensures var p := PlanOf(db, Delete(tab, cond));
            p.Some? ==> p.value.sub.tab == tab && p.value.sub.conds == LiftedAll(db, cs)
  {
  }

  // ---- index, columns and values of a plan --------------------------------------------------------

  /** The condition fixes a column of `tab`: a plain comparison for equality with a value, or a null
      test. */
  predicate Fixes(tab: string, c: Condition, name: string) {
    && c.lhs == Col(tab, name) && !c.isArith
    && (c.op.OpIsNull? || c.op.OpIsNotNull? || (c.op.OpEq? && c.isRhsVal))
  }

  /** The conditions that fix a column, in order. */
  function Fixing(tab: string, cs: seq<Condition>): (r: seq<Condition>)
    ensures forall c :: c in r <==> c in cs && Fixes(tab, c, c.lhs.name)
  {
    Planner.SelectIn(cs, (c: Condition) => Fixes(tab, c, c.lhs.name));
    Planner.Select(cs, (c: Condition) => Fixes(tab, c, c.lhs.name))
  }

  lemma {:induction false} FixedAre(tab: string, cs: seq<Condition>)
    ensures var fixing, names := Fixing(tab, cs), FixedCols(tab, cs);
            |names| == |fixing| && forall i :: 0 <= i < |names| ==> names[i] == fixing[i].lhs.name
  {
    if cs != [] { FixedAre(tab, cs[1..]); }
  }

  /** A scan uses an index if and only if the conditions that fix columns fix just the index's columns,
      in its order; then those are the columns it looks up. */
  lemma IndexIff(db: Catalog, tab: string, cs: seq<Condition>)
    requires tab in db.tables
    ensures var fixing, p := Fixing(tab, cs), ScanOf(db, tab, cs);
            var names := seq(|fixing|, i requires 0 <= i < |fixing| => fixing[i].lhs.name);
            && (p.tag == TagIndexScan <==> names != [] && names in db.tables[tab].indexes)
            && p.indexCols == (if p.tag == TagIndexScan then names else [])
            && (p.tag != TagIndexScan ==> p.tag == TagSeqScan)
            && p.tab == tab && p.cols == db.tables[tab].cols && p.conds == LiftedAll(db, cs) == p.fedConds && !p.indexOnly
  {
    FixedAre(tab, cs);
    var fixing := Fixing(tab, cs);
    assert FixedCols(tab, cs) == seq(|fixing|, i requires 0 <= i < |fixing| => fixing[i].lhs.name);
  }

  /** The length of a record is that of its columns, one after the other. */
  lemma {:induction false} RecordLength(cols: seq<ColMeta>, m: ColMeta)
    ensures TotalLen([]) == 0 && TotalLen(cols + [m]) == TotalLen(cols) + m.len
  {
    if cols == [] {
      assert [] + [m] == [m] && [m][1..] == [];
    } else {
      assert (cols + [m])[1..] == cols[1..] + [m];
      RecordLength(cols[1..], m);
    }
  }

  /** A SELECT without a list shows all columns of the table in order; it reads the index alone if and
      only if it uses one that has every column shown. */
  lemma SelectedColumns(db: Catalog, tab: string, cols: seq<Col>, forUpdate: bool, cond: Option<CondTree.CondExpr>, p: Plan<Bytes>)
    requires PlanOf(db, StatementPlan.Select([tab], cols, false, forUpdate, cond)) == Some(p)
    requires db.tables[tab].cols != []
    ensures var shown, scan := p.sub.selCols, p.sub.sub;
            && shown != []
            && (cols == [] ==> |shown| == |db.tables[tab].cols| &&
                               forall i :: 0 <= i < |shown| ==> shown[i] == Col(tab, db.tables[tab].cols[i].name))
            && (cols != [] ==> |shown| == |cols| && forall i :: 0 <= i < |cols| ==>
                                                              shown[i] == (if cols[i].tab == "" then Col(tab, cols[i].name) else cols[i]))
            && (scan.indexOnly <==> scan.tag == TagIndexScan && forall i :: 0 <= i < |shown| ==> shown[i].name in scan.indexCols)
            && p.forUpdate == forUpdate
  {
    if cols != [] { Resolved(db, tab, cols, p.sub.selCols); }
  }

  lemma {:induction false} Resolved(db: Catalog, tab: string, cols: seq<Col>, shown: seq<Col>)
    requires ResolveAll(db, tab, cols) == Some(shown)
    ensures |shown| == |cols|
    ensures forall i :: 0 <= i < |cols| ==> shown[i] == (if cols[i].tab == "" then Col(tab, cols[i].name) else cols[i])
  {
    if cols != [] { Resolved(db, tab, cols[1..], shown[1..]); }
  }

  /** The value of a literal. */
  predicate Stands(l: Lit, v: Val<Bytes>) {
    && v.raw == None && (v.isNull <==> l.NullLit?)
    && match l
       case IntLit(n) => v.datum == I(n)
       case FloatLit(r) => v.datum == F(r)
       case StrLit(s) => v.datum == S(s)
       case BoolLit(b) => v.datum == I(if b then 1 else 0)
       case NullLit => v.datum == I(NULL_INT)
  }

  /** A planned condition is the checked one; the values it compares a column of the table with stand in
      buffers of the column's length. */
  lemma LiftedValues(db: Catalog, c: Condition)
    requires db.MetaOf(c.lhs).Some?
    ensures var p, len, between := Lifted(db, c), db.MetaOf(c.lhs).value.len, c.op.OpBetween? || c.op.OpNotBetween?;
            && p.lhs == c.lhs && p.op == c.op && p.isRhsVal == c.isRhsVal && p.rhs == c.rhs && p.isArith == c.isArith
            && (between || (IsComparison(c.op) && c.isRhsVal) ==> p.rhsVal == Filled(db, c.rhsVal, len))
            && (between ==> p.rhsVal2 == Filled(db, c.rhsVal2, len))
            && |p.inValues| == |c.inValues| && (forall i :: 0 <= i < |c.inValues| ==> p.inValues[i] == Filled(db, c.inValues[i], len))
            && (c.op.OpLike? || c.op.OpNotLike? ==> p.rhsVal.raw == None && p.rhsVal.datum == DatumOf(c.rhsVal))
  {
  }

  /** An INSERT carries its literals row by row and place by place. */
  lemma InsertedValues(db: Catalog, tab: string, colNames: seq<string>, rows: seq<seq<Lit>>)
    ensures var p := PlanOf(db, Insert(tab, colNames, rows));
            && p.Some? && p.value.tab == tab && p.value.colNames == colNames && |p.value.values| == |rows|
            && forall i :: 0 <= i < |rows| ==>
                             |p.value.values[i]| == |rows[i]| && forall j :: 0 <= j < |rows[i]| ==> Stands(rows[i][j], p.value.values[i][j])
  {
  }

  /** An UPDATE carries its assignments in order, to columns of its table. */
  lemma {:induction false} SetValues(db: Catalog, tab: string, sets: seq<(string, Lit)>, ss: seq<SetClause<Bytes>>)
    requires SetClauses(db, tab, sets) == Some(ss)
    ensures |ss| == |sets|
    ensures forall i :: 0 <= i < |sets| ==>
                          ss[i].lhs == Col(tab, sets[i].0) && db.MetaOf(ss[i].lhs).Some? && Stands(sets[i].1, ss[i].rhs)
  {
    if sets != [] { SetValues(db, tab, sets[1..], ss[1..]); }
  }

  // ---- a SELECT that goes wrong ------------------------------------------------------------------

  const A: Col := Col("t", "a")

  /** a = 1 OR a = 2. */
  function OneOrTwo(): CondTree.CondExpr {
    CondTree.Or([CondTree.Binary(CondTree.LCol(A), OpEq, CondTree.RVal(IntV(1))), CondTree.Binary(CondTree.LCol(A), OpEq, CondTree.RVal(IntV(2)))])
  }

  function AEquals(n: int): Condition {
    CondTree.Leaf(A, OpEq, true, CondTree.NO_COL, IntV(n), CondTree.NO_VALUE, [], false)
  }

  lemma OneOrTwoFlat()
    ensures CondTree.Traverse(OneOrTwo()) == [CondTree.Node(OpOr, [AEquals(1), AEquals(2)])]
  {
    var x, y := AEquals(1), AEquals(2);
    var args := OneOrTwo().args;
    assert CondTree.Traverse(args[0]) == [x] && CondTree.Traverse(args[1]) == [y];
    assert CondTree.OrChildren(args[1..][1..]) == [];
    assert CondTree.OrChildren(args[1..]) == [y] + [];
    assert CondTree.OrChildren(args) == [x] + ([y] + []) == [x, y];
  }

  lemma TwoChildren(db: Catalog, tab: string, c: Condition, x: Condition, y: Condition)
    requires c.op.OpOr? && c.children == [x, y]
    requires CheckOne(db, tab, x) == Some(x) && CheckOne(db, tab, y) == Some(y)
    ensures CheckList(db, tab, [c]) == Some([c])
  {
    assert [x, y][1..] == [y] && [y][1..] == [];
    assert CheckAll(db, tab, c, []) == Some([]);
    assert CheckAll(db, tab, c, [y]) == Some([y] + []);
    assert CheckAll(db, tab, c, [x, y]) == Some([x] + ([y] + []));
    assert [x] + ([y] + []) == [x, y];
    assert CheckOne(db, tab, c) == Some(c.(children := [x, y])) && c.(children := [x, y]) == c;
    assert [c][1..] == [] && CheckList(db, tab, []) == Some([]);
    assert CheckList(db, tab, [c]) == Some([c] + []) && [c] + [] == [c];
  }

  lemma OneOrTwoChecked(db: Catalog)
    requires db.MetaOf(A) == Some(ColMeta("a", TypeInt, 4))
    ensures Checked(db, "t", Some(OneOrTwo())) == Some([CondTree.Node(OpOr, [AEquals(1), AEquals(2)])])
  {
    OneOrTwoFlat();
    TwoChildren(db, "t", CondTree.Node(OpOr, [AEquals(1), AEquals(2)]), AEquals(1), AEquals(2));
  }

  lemma OnThree()
    ensures !EvalCond(CondTree.Node(OpOr, [AEquals(1), AEquals(2)]), map[A := IntV(3)])
  {
    var c := CondTree.Node(OpOr, [AEquals(1), AEquals(2)]);
    var row: Row := map[A := IntV(3)];
    forall i | 0 <= i < 2 ensures !EvalCond(c.children[i], row) { ScanDecides(c.children[i], row); }
  }

  /** SELECT * FROM t WHERE a = 1 OR a = 2 yields the row in which a is 3. */
  lemma OrIsLost(db: Catalog)
    requires db.MetaOf(A) == Some(ColMeta("a", TypeInt, 4))
    ensures var cs, rows: seq<Row> := [CondTree.Node(OpOr, [AEquals(1), AEquals(2)])], [map[A := IntV(3)]];
            && Checked(db, "t", Some(OneOrTwo())) == Some(cs)
            && Scan(cs, rows) == [] && Scan(ScanConds("t", cs), rows) == rows
  {
    OneOrTwoChecked(db);
    OnThree();
    OneGroup(CondTree.Node(OpOr, [AEquals(1), AEquals(2)]), map[A := IntV(3)]);
  }

  lemma OneGroup(c: Condition, row: Row)
    requires OwnCond({"t"}, c) && IsGroup(c) && !EvalCond(c, row)
    ensures Scan([c], [row]) == [] && Scan(ScanConds("t", [c]), [row]) == [row]
  {
    assert [c][0] == c;
    ScannedCheck("t", [c], row);
    OneRow([c], row);
    OneRow(ScanConds("t", [c]), row);
  }

  lemma OneRow(cs: seq<Condition>, row: Row)
    ensures Scan(cs, [row]) == if CheckAllConds(cs, row) then [row] else []
  {
    assert [row][1..] == [] && Scan(cs, []) == [];
  }
}
