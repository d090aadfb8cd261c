/** The plan cache over a run of statements: what fills a slot, and when the plan rebound from it is
    the plan of the statement. */
module PlanSlots {
  import opened Conditions
  import CondTree
  import Planner
  import opened PlanCache
  import opened StatementPlan

  // ---- patterns -------------------------------------------------------------------------

  datatype Pattern = UpdateById | DeleteById | SelectBetween | InsertValues

  /** The pattern that a statement is taken for; it looks at less than the fast path builds. */
  function Identify(s: Stmt): Option<Pattern> {
    match s
    case Update(_, sets, cond) => if |sets| == 1 && sets[0].0 == "val" && cond.Some? then Some(UpdateById) else None
    case Delete(_, cond) => if cond.Some? then Some(DeleteById) else None
    case Select(_, _, _, _, cond) =>
      if cond.Some? && cond.value.And? && |cond.value.args| == 2 && cond.value.args[0].Between? && cond.value.args[0].col.name == "id"
      then Some(SelectBetween) else None
    case Insert(_, _, rows) => if |rows| == 1 && |rows[0]| == 3 then Some(InsertValues) else None
    case OtherStmt => None
  }

  function PatternOf(f: Fast): Pattern {
    match f
    case FastUpdate(_, _, _) => UpdateById
    case FastDelete(_, _) => DeleteById
    case FastSelect(_, _, _) => SelectBetween
    case FastInsert(_, _, _, _) => InsertValues
  }

  lemma FastIsIdentified(f: Fast)
    ensures Identify(Ast(f)) == Some(PatternOf(f))
  {
  }

  // ---- which fillers fit ------------------------------------------------------------------

  /** An equality of the table's id with a number. */
  predicate IsIdEquals(tab: string, c: Condition) {
    c == CondTree.Leaf(Col(tab, "id"), OpEq, true, CondTree.NO_COL, c.rhsVal, CondTree.NO_VALUE, [], false)
  }

  /** The id of a table is an INT column in both catalogs, which have the same columns of it. */
  predicate SameIntTable(db1: Catalog, db2: Catalog, tab: string) {
    && tab in db1.tables && tab in db2.tables && db1.tables[tab].cols == db2.tables[tab].cols
    && db2.MetaOf(Col(tab, "id")).Some? && db2.MetaOf(Col(tab, "id")).value.typ.TypeInt?
  }

  predicate SameIdIndex(db1: Catalog, db2: Catalog, tab: string) {
    tab in db1.tables && tab in db2.tables && (["id"] in db1.tables[tab].indexes <==> ["id"] in db2.tables[tab].indexes)
  }

  /** A statement whose only condition is an equality of its table's id with a number. */
  predicate OnOneId(db: Catalog, tab: string, cond: Option<CondTree.CondExpr>) {
    var cs := Checked(db, tab, cond);
    cs.Some? && |cs.value| == 1 && IsIdEquals(tab, cs.value[0])
  }

  /** A range of the table's id. */
  predicate IsIdBetween(tab: string, c: Condition) {
    c == CondTree.Leaf(Col(tab, "id"), OpBetween, true, CondTree.NO_COL, c.rhsVal, c.rhsVal2, [], false)
  }

  /** val + ... > 0, with the 0 of the type of the column. */
  function ValAboveZero(db: Catalog, tab: string): Option<Condition> {
    CheckOne(db, tab, CondTree.Leaf(Col("", "val"), OpGt, true, CondTree.NO_COL, IntV(0), CondTree.NO_VALUE, [], true))
  }

  /** The statement that filled a slot has the shape of the fast path's and is on the same table,
      which has not changed: then, and only then, its plan can be rebound. */
  predicate Fits(db1: Catalog, s: Stmt, db2: Catalog, f: Fast) {
    match f
    case FastUpdate(tab, _, _) =>
      && s.Update? && s.tab == tab && SameIntTable(db1, db2, tab) && SameIdIndex(db1, db2, tab)
      && OnOneId(db1, tab, s.cond) && |s.sets| == 1 && !s.sets[0].1.NullLit?
    case FastDelete(tab, _) =>
      s.Delete? && s.tab == tab && SameIntTable(db1, db2, tab) && SameIdIndex(db1, db2, tab) && OnOneId(db1, tab, s.cond)
    case FastSelect(tab, _, _) =>
      && s.Select? && s.tabs == [tab] && !s.more && !s.forUpdate && SameIntTable(db1, db2, tab)
      && SelectedCols(db1, tab, s.cols) == Some(AllCols(db2, tab)) && InRange(db1, db2, tab, s.cond)
    case FastInsert(tab, _, _, _) =>
      && s.Insert? && s.tab == tab && s.colNames == [] && |s.rows| == 1 && |s.rows[0]| == 3
      && forall i :: 0 <= i < 3 ==> !s.rows[0][i].NullLit?
  }

  /** A scan on a range of ids with val + ... > 0. */
  predicate InRange(db1: Catalog, db2: Catalog, tab: string, cond: Option<CondTree.CondExpr>) {
    var cs := Checked(db1, tab, cond);
    cs.Some? &&
    var scanned := ScanConds(tab, cs.value);
    |scanned| == 2 && IsIdBetween(tab, scanned[0]) && Some(scanned[1]) == ValAboveZero(db2, tab)
  }

  // ---- one condition ----------------------------------------------------------------------

  /** The condition `id = n` as the fast path's analysis leaves it in a table with an INT id. */
  function IdEquals(tab: string, n: int): Condition {
    CondTree.Leaf(Col(tab, "id"), OpEq, true, CondTree.NO_COL, IntV(n), CondTree.NO_VALUE, [], false)
  }

  predicate IntId(db: Catalog, tab: string) {
    db.MetaOf(Col(tab, "id")).Some? && db.MetaOf(Col(tab, "id")).value.typ.TypeInt?
  }

  /** What the analysis makes of the fast path's condition: an INT id, or a FLOAT one. */
  lemma OwnId(db: Catalog, tab: string, n: int)
    requires db.Valid()
    ensures var cs := Checked(db, tab, Some(CondTree.Binary(CondTree.LCol(Col("", "id")), OpEq, CondTree.RVal(IntV(n)))));
            && (IntId(db, tab) ==> cs == Some([IdEquals(tab, n)]))
            && (cs.Some? && !IntId(db, tab) ==> |cs.value| == 1 && cs.value[0] == IdEquals(tab, n).(rhsVal := FloatV(n as real)))
            && (cs.Some? ==> db.MetaOf(Col(tab, "id")).Some? && db.MetaOf(Col(tab, "id")).value.len == 4)
  {
    var c := CondTree.Leaf(Col("", "id"), OpEq, true, CondTree.NO_COL, IntV(n), CondTree.NO_VALUE, [], false);
    assert CondTree.Traverse(CondTree.Binary(CondTree.LCol(Col("", "id")), OpEq, CondTree.RVal(IntV(n)))) == [c];
    assert CheckList(db, tab, [c]) ==
           match CheckOne(db, tab, c) { case None => None case Some(x) => Some([x]) } by {
      assert [c][1..] == [];
      assert CheckList(db, tab, []) == Some([]);
      if CheckOne(db, tab, c).Some? { assert [CheckOne(db, tab, c).value] + [] == [CheckOne(db, tab, c).value]; }
    }
    MetaLen(db, Col(tab, "id"));
  }

  lemma MetaLen(db: Catalog, c: Col)
    requires db.Valid()
    ensures db.MetaOf(c).Some? && !db.MetaOf(c).value.typ.TypeString? ==> db.MetaOf(c).value.len == 4
  {
  }

  /** A checked comparison with a value has a value of the column's type. */
  lemma {:induction false} CheckedTypes(db: Catalog, tab: string, cs: seq<Condition>, c: Condition)
    requires CheckList(db, tab, cs).Some? && c in CheckList(db, tab, cs).value
    requires c.op.OpEq? && c.isRhsVal && c.lhs != CondTree.NO_COL
    ensures db.MetaOf(c.lhs).Some? && c.rhsVal.Type() == db.MetaOf(c.lhs).value.typ
  {
    if cs != [] && CheckOne(db, tab, cs[0]).value != c {
      CheckedTypes(db, tab, cs[1..], c);
    }
  }

  /** A condition rebound to `n` is the fast path's own exactly if it was an equality of the id with
      a number and the id is INT. */
  lemma ReboundIdIff(db1: Catalog, db2: Catalog, tab: string, c1: Condition, c2: Condition, n: int)
    requires db1.Valid() && db2.Valid() && SameCols(db1, db2, tab)
    requires c2 == IdEquals(tab, n) || c2 == IdEquals(tab, n).(rhsVal := FloatV(n as real))
    requires c2.rhsVal.IntV? <==> IntId(db2, tab)
    requires db2.MetaOf(Col(tab, "id")).Some? && db1.MetaOf(Col(tab, "id")).Some?
    requires c1.op.OpEq? && c1.isRhsVal && c1.lhs == Col(tab, "id") ==> c1.rhsVal.Type() == db1.MetaOf(Col(tab, "id")).value.typ
    ensures Lifted(db1, c1).(rhsVal := ReboundInt(Lifted(db1, c1).rhsVal, n)) == Lifted(db2, c2) <==> IsIdEquals(tab, c1) && IntId(db2, tab)
  {
    assert db1.MetaOf(Col(tab, "id")) == db2.MetaOf(Col(tab, "id"));
    MetaLen(db2, Col(tab, "id"));
    var l1, l2 := Lifted(db1, c1), Lifted(db2, c2);
    if l1.(rhsVal := ReboundInt(l1.rhsVal, n)) == l2 {
      assert |l1.inValues| == |c1.inValues| && |l1.children| == |c1.children|;
      assert l1.rhsVal2 == Plain(c1.rhsVal2) && DatumOf(c1.rhsVal2) == I(0);
    }
  }

  predicate SameCols(db1: Catalog, db2: Catalog, tab: string) {
    tab in db1.tables && tab in db2.tables && db1.tables[tab].cols == db2.tables[tab].cols
  }

  // ---- UPDATE and DELETE ---------------------------------------------------------------------

  lemma OneFixed(tab: string, c: Condition)
    requires c.lhs == Col(tab, "id") && c.op.OpEq? && c.isRhsVal && !c.isArith
    ensures FixedCols(tab, [c]) == ["id"]
  {
    assert [c][1..] == [];
  }

  /** The scan below and the conditions above, rebound. */
  ghost predicate WhereMatches(db1: Catalog, tab1: string, cs1: seq<Condition>, db2: Catalog, tab: string, cs2: seq<Condition>, n: int)
    requires tab1 in db1.tables && tab in db2.tables
  {
    && cs1 != [] && FirstRebound(LiftedAll(db1, cs1), n) == LiftedAll(db2, cs2)
    && ReboundScan(ScanOf(db1, tab1, cs1), FirstRebound(LiftedAll(db1, cs1), n)) == ScanOf(db2, tab, cs2)
  }

  lemma FirstOfOne(db1: Catalog, c1: Condition, db2: Catalog, c2: Condition, n: int)
    ensures FirstRebound(LiftedAll(db1, [c1]), n) == LiftedAll(db2, [c2]) <==>
            Lifted(db1, c1).(rhsVal := ReboundInt(Lifted(db1, c1).rhsVal, n)) == Lifted(db2, c2)
  {
    var l1, l2 := LiftedAll(db1, [c1]), LiftedAll(db2, [c2]);
    assert l1[1..] == [] && l2 == [l2[0]];
    assert FirstRebound(l1, n)[0] == l1[0].(rhsVal := ReboundInt(l1[0].rhsVal, n));
  }

  lemma ScansMatch(db1: Catalog, db2: Catalog, tab: string, c1: Condition, c2: Condition, n: int)
    requires SameCols(db1, db2, tab) && IsIdEquals(tab, c1) && IsIdEquals(tab, c2)
    requires FirstRebound(LiftedAll(db1, [c1]), n) == LiftedAll(db2, [c2])
    ensures ReboundScan(ScanOf(db1, tab, [c1]), FirstRebound(LiftedAll(db1, [c1]), n)) == ScanOf(db2, tab, [c2]) <==>
            SameIdIndex(db1, db2, tab)
  {
    OneFixed(tab, c1);
    OneFixed(tab, c2);
  }

  lemma WhereIff(db1: Catalog, tab1: string, cond: Option<CondTree.CondExpr>, db2: Catalog, tab: string, cs2: seq<Condition>, n: int)
    requires db1.Valid() && db2.Valid() && tab1 in db1.tables && tab in db2.tables && Checked(db1, tab1, cond).Some?
    requires Checked(db2, tab, Some(CondTree.Binary(CondTree.LCol(Col("", "id")), OpEq, CondTree.RVal(IntV(n))))) == Some(cs2)
    ensures WhereMatches(db1, tab1, Checked(db1, tab1, cond).value, db2, tab, cs2, n) <==>
            tab1 == tab && SameIntTable(db1, db2, tab) && SameIdIndex(db1, db2, tab) && OnOneId(db1, tab1, cond)
  {
    var cs1 := Checked(db1, tab1, cond).value;
    OwnId(db2, tab, n);
    assert |LiftedAll(db2, cs2)| == 1 && |LiftedAll(db1, cs1)| == |cs1|;
    if tab1 == tab && |cs1| == 1 && SameCols(db1, db2, tab) {
      var c1, c2 := cs1[0], cs2[0];
      assert cs1 == [c1] && cs2 == [c2];
      if c1.op.OpEq? && c1.isRhsVal && c1.lhs == Col(tab, "id") {
        CheckedTypes(db1, tab, if cond.Some? then CondTree.Traverse(cond.value) else [], c1);
      }
      assert db1.MetaOf(Col(tab, "id")) == db2.MetaOf(Col(tab, "id"));
      ReboundIdIff(db1, db2, tab, c1, c2, n);
      FirstOfOne(db1, c1, db2, c2, n);
      if IsIdEquals(tab, c1) && IntId(db2, tab) { ScansMatch(db1, db2, tab, c1, c2, n); }
    }
  }

  /** Set clauses match after rebinding exactly for one table and a value that is not NULL. */
  lemma SetsIff(tab1: string, l: Lit, tab: string, v: int)
    ensures SetClause(Col(tab1, "val"), ReboundInt(LitVal(l), v)) == SetClause(Col(tab, "val"), LitVal(IntLit(v))) <==>
            tab1 == tab && !l.NullLit?
  {
  }

  /** An UPDATE slot. */
  lemma UpdateIff(db1: Catalog, s: Stmt, db2: Catalog, f: Fast, p1: Plan<Bytes>, p2: Plan<Bytes>)
    requires db1.Valid() && db2.Valid() && f.FastUpdate? && Identify(s) == Some(UpdateById)
    requires PlanOf(db1, s) == Some(p1) && PlanOf(db2, Ast(f)) == Some(p2)
    ensures Rebinds(p1, f) && Rebound(p1, f) == p2 <==> Fits(db1, s, db2, f)
  {
    var cs1, cs2 := Checked(db1, s.tab, s.cond).value, Checked(db2, f.tab, Ast(f).cond).value;
    WhereIff(db1, s.tab, s.cond, db2, f.tab, cs2, f.id);
    OneSet(db1, s.tab, s.sets);
    OneSet(db2, f.tab, Ast(f).sets);
    SetsIff(s.tab, s.sets[0].1, f.tab, f.v);
    UpdateParts(db1, s, db2, f, p1, p2, cs1, cs2);
  }

  /** The rebound plan is the own one part by part. */
  lemma UpdateParts(db1: Catalog, s: Stmt, db2: Catalog, f: Fast, p1: Plan<Bytes>, p2: Plan<Bytes>, cs1: seq<Condition>, cs2: seq<Condition>)
    requires f.FastUpdate? && s.Update? && PlanOf(db1, s) == Some(p1) && PlanOf(db2, Ast(f)) == Some(p2) && |p1.sets| == 1 == |p2.sets|
    requires Checked(db1, s.tab, s.cond) == Some(cs1) && Checked(db2, f.tab, Ast(f).cond) == Some(cs2)
    ensures Rebinds(p1, f) && Rebound(p1, f) == p2 <==>
            s.tab == f.tab && WhereMatches(db1, s.tab, cs1, db2, f.tab, cs2, f.id)
            && SetClause(p1.sets[0].lhs, ReboundInt(p1.sets[0].rhs, f.v)) == p2.sets[0]
  {
    assert p2.sets == [p2.sets[0]];
    assert |LiftedAll(db1, cs1)| == |cs1|;
  }

  lemma OneSet(db: Catalog, tab: string, sets: seq<(string, Lit)>)
    requires |sets| == 1 && sets[0].0 == "val" && SetClauses(db, tab, sets).Some?
    ensures SetClauses(db, tab, sets).value == [SetClause(Col(tab, "val"), LitVal(sets[0].1))]
  {
    assert sets[1..] == [];
  }

  /** A DELETE slot. */
  lemma DeleteIff(db1: Catalog, s: Stmt, db2: Catalog, f: Fast, p1: Plan<Bytes>, p2: Plan<Bytes>)
    requires db1.Valid() && db2.Valid() && f.FastDelete? && Identify(s) == Some(DeleteById)
    requires PlanOf(db1, s) == Some(p1) && PlanOf(db2, Ast(f)) == Some(p2)
    ensures Rebinds(p1, f) && Rebound(p1, f) == p2 <==> Fits(db1, s, db2, f)
  {
    WhereIff(db1, s.tab, s.cond, db2, f.tab, Checked(db2, f.tab, Ast(f).cond).value, f.id);
  }

  /** An INSERT slot. */
  lemma InsertIff(db1: Catalog, s: Stmt, db2: Catalog, f: Fast, p1: Plan<Bytes>, p2: Plan<Bytes>)
    requires f.FastInsert? && Identify(s) == Some(InsertValues)
    requires PlanOf(db1, s) == Some(p1) && PlanOf(db2, Ast(f)) == Some(p2)
    ensures Rebinds(p1, f) && Rebound(p1, f) == p2 <==> Fits(db1, s, db2, f)
  {
    var row, own := p1.values[0], p2.values[0];
    assert row == [row[0], row[1], row[2]] && own == [LitVal(IntLit(f.id)), LitVal(IntLit(f.v)), LitVal(StrLit(f.s))];
    assert p2.values == [own] && |Rebound(p1, f).values| == 1;
    forall i | 0 <= i < 3 ensures row[i] == LitVal(s.rows[0][i]) && row[i].isNull == s.rows[0][i].NullLit? {
    }
  }

  // ---- SELECT ---------------------------------------------------------------------------------

  /** The range as the fast path's analysis leaves it in a table with an INT id. */
  function IdRange(tab: string, low: int, high: int): Condition {
    CondTree.Leaf(Col(tab, "id"), OpBetween, true, CondTree.NO_COL, IntV(low), IntV(high), [], false)
  }

  lemma OwnRange(db: Catalog, f: Fast)
    requires db.Valid() && f.FastSelect? && Checked(db, f.tab, Ast(f).cond).Some?
    ensures var cs := Checked(db, f.tab, Ast(f).cond).value;
            && |cs| == 2 && ValAboveZero(db, f.tab) == Some(cs[1])
            && (if IntId(db, f.tab) then cs[0] == IdRange(f.tab, f.low, f.high)
                else cs[0] == IdRange(f.tab, f.low, f.high).(rhsVal := FloatV(f.low as real), rhsVal2 := FloatV(f.high as real)))
            && db.MetaOf(Col(f.tab, "id")).Some? && db.MetaOf(Col(f.tab, "id")).value.len == 4
  {
    var b := CondTree.Leaf(Col("", "id"), OpBetween, true, CondTree.NO_COL, IntV(f.low), IntV(f.high), [], false);
    var g := CondTree.Leaf(Col("", "val"), OpGt, true, CondTree.NO_COL, IntV(0), CondTree.NO_VALUE, [], true);
    OwnTree(f, b, g);
    TwoChecked(db, f.tab, b, g);
    MetaLen(db, Col(f.tab, "id"));
  }

  lemma OwnTree(f: Fast, b: Condition, g: Condition)
    requires f.FastSelect?
    requires b == CondTree.Leaf(Col("", "id"), OpBetween, true, CondTree.NO_COL, IntV(f.low), IntV(f.high), [], false)
    requires g == CondTree.Leaf(Col("", "val"), OpGt, true, CondTree.NO_COL, IntV(0), CondTree.NO_VALUE, [], true)
    ensures CondTree.Traverse(Ast(f).cond.value) == [b, g]
  {
    var args := Ast(f).cond.value.args;
    assert CondTree.Traverse(args[0]) == [b] && CondTree.Traverse(args[1]) == [g];
    assert args[1..] == [args[1]] && args[1..][1..] == [];
    assert CondTree.TraverseAll(args[1..]) == [g] + CondTree.TraverseAll([]);
    assert CondTree.TraverseAll(args) == [b] + CondTree.TraverseAll(args[1..]);
  }

  lemma TwoChecked(db: Catalog, tab: string, b: Condition, g: Condition)
    ensures var b', g' := CheckOne(db, tab, b), CheckOne(db, tab, g);
            CheckList(db, tab, [b, g]) == if b'.Some? && g'.Some? then Some([b'.value, g'.value]) else None
  {
    assert [b, g][1..] == [g] && [g][1..] == [];
    assert CheckList(db, tab, []) == Some([]);
    if CheckOne(db, tab, g).Some? {
      assert [CheckOne(db, tab, g).value] + [] == [CheckOne(db, tab, g).value];
      assert CheckList(db, tab, [g]) == Some([CheckOne(db, tab, g).value]);
    } else {
      assert CheckList(db, tab, [g]).None?;
    }
    if CheckOne(db, tab, b).Some? && CheckOne(db, tab, g).Some? {
      assert [CheckOne(db, tab, b).value] + [CheckOne(db, tab, g).value] == [CheckOne(db, tab, b).value, CheckOne(db, tab, g).value];
    }
  }

  /** Two filters of the table, neither an equality, stay in place. */
  lemma TwoScanned(tab: string, b: Condition, g: Condition)
    requires b.isRhsVal && g.isRhsVal && b.lhs.tab == tab && g.lhs.tab == tab && !b.op.OpEq? && !g.op.OpEq?
    ensures ScanConds(tab, [b, g]) == [b, g]
  {
    var cs := [b, g];
    Both(cs, Planner.IsFilter);
    Neither(cs, c => !Planner.IsFilter(c));
    Neither(cs, Planner.IsEq);
    Both(cs, c => !Planner.IsEq(c));
    assert [] + cs == cs && cs + [] == cs;
    assert Planner.EqFirst(cs) == cs && Planner.EqFirst([]) == [];
    assert Planner.Reordered(cs) == cs;
    Both(cs, c => Planner.Pops(tab, c));
  }

  lemma Both(cs: seq<Condition>, p: Condition -> bool)
    requires |cs| == 2 && p(cs[0]) && p(cs[1])
    ensures Planner.Select(cs, p) == cs
  {
    assert cs[1..] == [cs[1]] && cs[1..][1..] == [];
    assert Planner.Select([], p) == [];
    assert Planner.Select(cs[1..], p) == [cs[1]] + [];
    assert [cs[0]] + [cs[1]] == cs;
  }

  lemma Neither(cs: seq<Condition>, p: Condition -> bool)
    requires |cs| == 2 && !p(cs[0]) && !p(cs[1])
    ensures Planner.Select(cs, p) == []
  {
    assert cs[1..] == [cs[1]] && cs[1..][1..] == [];
    assert Planner.Select([], p) == [];
    assert Planner.Select(cs[1..], p) == [];
  }

  /** What a SELECT scans are conditions it checked. */
  lemma ScannedIsChecked(tab: string, cs: seq<Condition>, c: Condition)
    requires c in ScanConds(tab, cs)
    ensures c in cs
  {
    Planner.Selects(Planner.Reordered(cs), c => Planner.Pops(tab, c), c);
    Planner.ReorderedHas(cs, c);
  }

  lemma {:induction false} CheckedRanges(db: Catalog, tab: string, cs: seq<Condition>, c: Condition)
    requires CheckList(db, tab, cs).Some? && c in CheckList(db, tab, cs).value
    requires c.op.OpBetween? && c.lhs != CondTree.NO_COL
    ensures db.MetaOf(c.lhs).Some?
    ensures c.rhsVal.Type() == db.MetaOf(c.lhs).value.typ && FitsBuffer(c.rhsVal2, db.MetaOf(c.lhs).value.len)
  {
    if cs != [] && CheckOne(db, tab, cs[0]).value != c {
      CheckedRanges(db, tab, cs[1..], c);
    }
  }

  /** A condition rebound to a range is the fast path's own exactly if it was a range of the id and the
      id is INT. */
  lemma ReboundRangeIff(db1: Catalog, db2: Catalog, tab: string, c1: Condition, c2: Condition, low: int, high: int)
    requires db1.Valid() && db2.Valid() && SameCols(db1, db2, tab)
    requires c2 == IdRange(tab, low, high) || c2 == IdRange(tab, low, high).(rhsVal := FloatV(low as real), rhsVal2 := FloatV(high as real))
    requires c2.rhsVal.IntV? <==> IntId(db2, tab)
    requires db2.MetaOf(Col(tab, "id")).Some? && db1.MetaOf(Col(tab, "id")).Some?
    requires c1.op.OpBetween? && c1.lhs == Col(tab, "id") ==>
               c1.rhsVal.Type() == db1.MetaOf(Col(tab, "id")).value.typ && FitsBuffer(c1.rhsVal2, db1.MetaOf(Col(tab, "id")).value.len)
    ensures var l1 := Lifted(db1, c1);
            l1.(rhsVal := ReboundInt(l1.rhsVal, low), rhsVal2 := ReboundInt(l1.rhsVal2, high)) == Lifted(db2, c2) <==>
            IsIdBetween(tab, c1) && IntId(db2, tab)
  {
    assert db1.MetaOf(Col(tab, "id")) == db2.MetaOf(Col(tab, "id"));
    MetaLen(db2, Col(tab, "id"));
    var l1, l2 := Lifted(db1, c1), Lifted(db2, c2);
    if l1.(rhsVal := ReboundInt(l1.rhsVal, low), rhsVal2 := ReboundInt(l1.rhsVal2, high)) == l2 {
      assert |l1.inValues| == |c1.inValues| && |l1.children| == |c1.children|;
    }
  }

  /** A simple condition is known from its lifted form. */
  lemma LiftedKnown(db1: Catalog, db2: Catalog, c1: Condition, c2: Condition)
    requires c2.inValues == [] && c2.children == [] && Lifted(db1, c1) == Lifted(db2, c2)
    ensures c1 == c2
  {
    var l1, l2 := Lifted(db1, c1), Lifted(db2, c2);
    assert |l1.inValues| == |c1.inValues| && |l1.children| == |c1.children|;
    assert |l2.inValues| == 0 && |l2.children| == 0;
    assert l1.rhsVal.datum == DatumOf(c1.rhsVal) && l1.rhsVal2.datum == DatumOf(c1.rhsVal2);
    assert l2.rhsVal.datum == DatumOf(c2.rhsVal) && l2.rhsVal2.datum == DatumOf(c2.rhsVal2);
    DatumKnown(c1.rhsVal, c2.rhsVal);
    DatumKnown(c1.rhsVal2, c2.rhsVal2);
  }

  lemma DatumKnown(v: Value, w: Value)
    ensures DatumOf(v) == DatumOf(w) ==> v == w
  {
  }

  lemma LiftedAlike(db1: Catalog, db2: Catalog, c: Condition)
    requires c.inValues == [] && c.children == [] && db1.MetaOf(c.lhs) == db2.MetaOf(c.lhs) && db1.floatBytes == db2.floatBytes
    ensures Lifted(db1, c) == Lifted(db2, c)
  {
    assert Lifted(db1, c).inValues == [] == Lifted(db2, c).inValues;
    assert Lifted(db1, c).children == [] == Lifted(db2, c).children;
  }

  function RangeRebound(cs: seq<Cond<Bytes>>, f: Fast): seq<Cond<Bytes>>
    requires f.FastSelect?
  {
    FirstHighRebound(FirstRebound(cs, f.low), f.high)
  }

  lemma FirstOfTwo(db1: Catalog, b1: Condition, g1: Condition, db2: Catalog, b2: Condition, g2: Condition, f: Fast)
    requires f.FastSelect?
    ensures var l := Lifted(db1, b1);
            RangeRebound(LiftedAll(db1, [b1, g1]), f) == LiftedAll(db2, [b2, g2]) <==>
            l.(rhsVal := ReboundInt(l.rhsVal, f.low), rhsVal2 := ReboundInt(l.rhsVal2, f.high)) == Lifted(db2, b2)
            && Lifted(db1, g1) == Lifted(db2, g2)
  {
    var l1, l2 := LiftedAll(db1, [b1, g1]), LiftedAll(db2, [b2, g2]);
    assert l1[1..] == [l1[1]] && l2 == [l2[0], l2[1]];
    var m := FirstRebound(l1, f.low);
    assert m == [m[0], l1[1]] && m[1..] == [l1[1]];
    var r := FirstHighRebound(m, f.high);
    assert r == [r[0], l1[1]];
  }

  /** The conditions scanned, rebound, are the fast path's own exactly for a range of the id and
      val + ... > 0. */
  lemma RangesIff(db1: Catalog, tab: string, sc: seq<Condition>, db2: Catalog, b2: Condition, g2: Condition, f: Fast)
    requires f.FastSelect? && f.tab == tab && db1.Valid() && db2.Valid() && SameCols(db1, db2, tab) && db1.floatBytes == db2.floatBytes
    requires if IntId(db2, tab) then b2 == IdRange(tab, f.low, f.high)
             else b2 == IdRange(tab, f.low, f.high).(rhsVal := FloatV(f.low as real), rhsVal2 := FloatV(f.high as real))
    requires db2.MetaOf(Col(tab, "id")).Some? && g2.lhs.tab == tab && g2.inValues == [] && g2.children == []
    requires forall c :: c in sc ==> RangeTyped(db1, tab, c)
    ensures RangeRebound(LiftedAll(db1, sc), f) == LiftedAll(db2, [b2, g2]) <==>
            |sc| == 2 && IsIdBetween(tab, sc[0]) && IntId(db2, tab) && sc[1] == g2
  {
    assert |RangeRebound(LiftedAll(db1, sc), f)| == |sc| && |LiftedAll(db2, [b2, g2])| == 2;
    if |sc| == 2 {
      assert sc == [sc[0], sc[1]] && sc[0] in sc;
      assert db1.MetaOf(Col(tab, "id")) == db2.MetaOf(Col(tab, "id")) && db1.MetaOf(g2.lhs) == db2.MetaOf(g2.lhs);
      FirstOfTwo(db1, sc[0], sc[1], db2, b2, g2, f);
      ReboundRangeIff(db1, db2, tab, sc[0], b2, f.low, f.high);
      if Lifted(db1, sc[1]) == Lifted(db2, g2) { LiftedKnown(db1, db2, sc[1], g2); }
      LiftedAlike(db1, db2, g2);
      assert Lifted(db1, sc[1]) == Lifted(db2, g2) <==> sc[1] == g2;
      assert LiftedAll(db1, sc) == LiftedAll(db1, [sc[0], sc[1]]);
    } else {
      assert RangeRebound(LiftedAll(db1, sc), f) != LiftedAll(db2, [b2, g2]);
    }
  }

  lemma NoneFixed(tab: string, b: Condition, g: Condition)
    requires !b.op.OpEq? && !b.op.OpIsNull? && !b.op.OpIsNotNull? && g.isArith
    ensures FixedCols(tab, [b, g]) == []
  {
    assert [b, g][1..] == [g] && [g][1..] == [];
    assert FixedCols(tab, []) == [];
    assert FixedCols(tab, [g]) == [];
  }

  /** A SELECT's scan rebound is the own one. */
  ghost predicate ScanMatches(db1: Catalog, tab1: string, sc1: seq<Condition>, db2: Catalog, f: Fast, sc2: seq<Condition>)
    requires tab1 in db1.tables && f.FastSelect? && f.tab in db2.tables
  {
    tab1 == f.tab && SameCols(db1, db2, tab1) && RangeRebound(LiftedAll(db1, sc1), f) == LiftedAll(db2, sc2)
  }

  lemma SelectParts(db1: Catalog, tab1: string, cols1: seq<Col>, cs1: seq<Condition>, forUpdate: bool,
                    db2: Catalog, f: Fast, cs2: seq<Condition>)
    requires f.FastSelect? && tab1 in db1.tables && f.tab in db2.tables
    requires ScanMatches(db1, tab1, ScanConds(tab1, cs1), db2, f, ScanConds(f.tab, cs2)) ==>
               FixedCols(tab1, ScanConds(tab1, cs1)) == [] == FixedCols(f.tab, ScanConds(f.tab, cs2))
    ensures Rebound(SelectPlan(db1, tab1, cols1, cs1, forUpdate), f) == SelectPlan(db2, f.tab, AllCols(db2, f.tab), cs2, false) <==>
            !forUpdate && cols1 == AllCols(db2, f.tab) && ScanMatches(db1, tab1, ScanConds(tab1, cs1), db2, f, ScanConds(f.tab, cs2))
  {
    var sc1, sc2, cols2 := ScanConds(tab1, cs1), ScanConds(f.tab, cs2), AllCols(db2, f.tab);
    var scan1, scan2 := SelectScan(db1, tab1, cols1, sc1), SelectScan(db2, f.tab, cols2, sc2);
    var r := ReboundScan(scan1, RangeRebound(scan1.conds, f));
    assert Rebound(SelectPlan(db1, tab1, cols1, cs1, forUpdate), f) ==
           DMLPlan(TagSelect, ProjectionPlan(TagProjection, r, cols1), "", [], [], [], [], forUpdate);
    assert SelectPlan(db2, f.tab, cols2, cs2, false) == DMLPlan(TagSelect, ProjectionPlan(TagProjection, scan2, cols2), "", [], [], [], [], false);
    if r == scan2 { ScansDiffer(db1, tab1, cols1, sc1, db2, f, cols2, sc2); }
    if ScanMatches(db1, tab1, sc1, db2, f, sc2) { ScansAgree(db1, tab1, cols1, sc1, db2, f, cols2, sc2); }
  }

  /** The scan of a SELECT. */
  function SelectScan(db: Catalog, tab: string, cols: seq<Col>, sc: seq<Condition>): Plan<Bytes>
    requires tab in db.tables
  {
    var scan := ScanOf(db, tab, sc);
    scan.(indexOnly := Covers(scan.indexCols, cols))
  }

  lemma ScansDiffer(db1: Catalog, tab1: string, cols1: seq<Col>, sc1: seq<Condition>, db2: Catalog, f: Fast, cols2: seq<Col>, sc2: seq<Condition>)
    requires f.FastSelect? && tab1 in db1.tables && f.tab in db2.tables
    requires ReboundScan(SelectScan(db1, tab1, cols1, sc1), RangeRebound(LiftedAll(db1, sc1), f)) == SelectScan(db2, f.tab, cols2, sc2)
    ensures ScanMatches(db1, tab1, sc1, db2, f, sc2)
  {
    var r, scan2 := ReboundScan(SelectScan(db1, tab1, cols1, sc1), RangeRebound(LiftedAll(db1, sc1), f)), SelectScan(db2, f.tab, cols2, sc2);
    assert r.tab == scan2.tab && r.cols == scan2.cols && r.conds == scan2.conds;
  }

  lemma ScansAgree(db1: Catalog, tab1: string, cols1: seq<Col>, sc1: seq<Condition>, db2: Catalog, f: Fast, cols2: seq<Col>, sc2: seq<Condition>)
    requires f.FastSelect? && tab1 in db1.tables && f.tab in db2.tables
    requires ScanMatches(db1, tab1, sc1, db2, f, sc2) && FixedCols(tab1, sc1) == [] == FixedCols(f.tab, sc2)
    ensures ReboundScan(SelectScan(db1, tab1, cols1, sc1), RangeRebound(LiftedAll(db1, sc1), f)) == SelectScan(db2, f.tab, cols2, sc2)
  {
    var scan1, scan2 := SelectScan(db1, tab1, cols1, sc1), SelectScan(db2, f.tab, cols2, sc2);
    assert scan1.indexCols == [] == scan2.indexCols && scan1.tag == scan2.tag;
  }

  /** A SELECT slot. */
  lemma SelectIff(db1: Catalog, s: Stmt, db2: Catalog, f: Fast, p1: Plan<Bytes>, p2: Plan<Bytes>)
    requires db1.Valid() && db2.Valid() && db1.floatBytes == db2.floatBytes && f.FastSelect? && Identify(s) == Some(SelectBetween)
    requires PlanOf(db1, s) == Some(p1) && PlanOf(db2, Ast(f)) == Some(p2)
    ensures Rebinds(p1, f) && Rebound(p1, f) == p2 <==> Fits(db1, s, db2, f)
  {
    if !s.more && |s.tabs| == 1 { OneTableIff(db1, s, db2, f, p1, p2); }
  }

  lemma OneTableIff(db1: Catalog, s: Stmt, db2: Catalog, f: Fast, p1: Plan<Bytes>, p2: Plan<Bytes>)
    requires db1.Valid() && db2.Valid() && db1.floatBytes == db2.floatBytes && f.FastSelect?
    requires s.Select? && !s.more && |s.tabs| == 1
    requires PlanOf(db1, s) == Some(p1) && PlanOf(db2, Ast(f)) == Some(p2)
    ensures Rebinds(p1, f) && Rebound(p1, f) == p2 <==> Fits(db1, s, db2, f)
  {
    var tab1, cs1, cs2 := s.tabs[0], Checked(db1, s.tabs[0], s.cond).value, Checked(db2, f.tab, Ast(f).cond).value;
    var cols1 := SelectedCols(db1, tab1, s.cols).value;
    assert p1 == SelectPlan(db1, tab1, cols1, cs1, s.forUpdate) && p2 == SelectPlan(db2, f.tab, AllCols(db2, f.tab), cs2, false);
    OwnScanned(db2, f, cs2);
    if tab1 == f.tab && SameCols(db1, db2, tab1) { ScannedIff(db1, s, db2, f, cs1, cs2); }
    SelectParts(db1, tab1, cols1, cs1, s.forUpdate, db2, f, cs2);
    FitsParts(db1, s, db2, f, cs1, cs2);
  }

  lemma FitsParts(db1: Catalog, s: Stmt, db2: Catalog, f: Fast, cs1: seq<Condition>, cs2: seq<Condition>)
    requires db1.Valid() && db2.Valid() && db1.floatBytes == db2.floatBytes && f.FastSelect? && f.tab in db2.tables
    requires s.Select? && !s.more && |s.tabs| == 1 && s.tabs[0] in db1.tables
    requires Checked(db1, s.tabs[0], s.cond) == Some(cs1) && Checked(db2, f.tab, Ast(f).cond) == Some(cs2)
    ensures Fits(db1, s, db2, f) <==>
            && !s.forUpdate && SelectedCols(db1, s.tabs[0], s.cols) == Some(AllCols(db2, f.tab))
            && ScanMatches(db1, s.tabs[0], ScanConds(s.tabs[0], cs1), db2, f, ScanConds(f.tab, cs2))
  {
    assert s.tabs == [s.tabs[0]];
    OwnHasId(db2, f);
    if s.tabs[0] == f.tab && SameCols(db1, db2, f.tab) { ScannedIff(db1, s, db2, f, cs1, cs2); }
  }

  lemma OwnHasId(db: Catalog, f: Fast)
    requires db.Valid() && f.FastSelect? && Checked(db, f.tab, Ast(f).cond).Some?
    ensures db.MetaOf(Col(f.tab, "id")).Some?
  {
    OwnRange(db, f);
  }

  lemma ValShape(db: Catalog, tab: string)
    ensures var g := ValAboveZero(db, tab);
            g.Some? ==> g.value == CondTree.Leaf(Col(tab, "val"), OpGt, true, CondTree.NO_COL, g.value.rhsVal, CondTree.NO_VALUE, [], true)
  {
  }

  lemma OwnScanned(db: Catalog, f: Fast, cs: seq<Condition>)
    requires db.Valid() && f.FastSelect? && Checked(db, f.tab, Ast(f).cond) == Some(cs)
    ensures |cs| == 2 && ScanConds(f.tab, cs) == cs && FixedCols(f.tab, cs) == []
    ensures cs[1].lhs.tab == f.tab && cs[1].isArith && cs[1].inValues == [] && cs[1].children == []
  {
    OwnRange(db, f);
    ValShape(db, f.tab);
    assert cs == [cs[0], cs[1]];
    TwoScanned(f.tab, cs[0], cs[1]);
    NoneFixed(f.tab, cs[0], cs[1]);
  }

  /** A range of the id that is scanned has been checked. */
  predicate RangeTyped(db: Catalog, tab: string, c: Condition) {
    c.op.OpBetween? && c.lhs == Col(tab, "id") ==>
      && db.MetaOf(Col(tab, "id")).Some?
      && c.rhsVal.Type() == db.MetaOf(Col(tab, "id")).value.typ && FitsBuffer(c.rhsVal2, db.MetaOf(Col(tab, "id")).value.len)
  }

  lemma ScannedTyped(db: Catalog, tab: string, cond: Option<CondTree.CondExpr>, cs: seq<Condition>, c: Condition)
    requires Checked(db, tab, cond) == Some(cs) && c in ScanConds(tab, cs)
    ensures RangeTyped(db, tab, c)
  {
    ScannedIsChecked(tab, cs, c);
    if c.op.OpBetween? && c.lhs == Col(tab, "id") {
      CheckedRanges(db, tab, if cond.Some? then CondTree.Traverse(cond.value) else [], c);
    }
  }

  lemma ScannedIff(db1: Catalog, s: Stmt, db2: Catalog, f: Fast, cs1: seq<Condition>, cs2: seq<Condition>)
    requires db1.Valid() && db2.Valid() && db1.floatBytes == db2.floatBytes && f.FastSelect? && s.Select?
    requires SameCols(db1, db2, f.tab) && Checked(db1, f.tab, s.cond) == Some(cs1) && Checked(db2, f.tab, Ast(f).cond) == Some(cs2)
    ensures ScanMatches(db1, f.tab, ScanConds(f.tab, cs1), db2, f, ScanConds(f.tab, cs2)) <==>
            InRange(db1, db2, f.tab, s.cond) && IntId(db2, f.tab)
    ensures ScanMatches(db1, f.tab, ScanConds(f.tab, cs1), db2, f, ScanConds(f.tab, cs2)) ==> FixedCols(f.tab, ScanConds(f.tab, cs1)) == []
  {
    var sc := ScanConds(f.tab, cs1);
    OwnScanned(db2, f, cs2);
    forall c | c in sc ensures RangeTyped(db1, f.tab, c) {
      ScannedTyped(db1, f.tab, s.cond, cs1, c);
    }
    OwnIff(db1, sc, db2, f, cs2);
    if |sc| == 2 && IsIdBetween(f.tab, sc[0]) && sc[1] == cs2[1] {
      assert sc == [sc[0], sc[1]];
      NoneFixed(f.tab, sc[0], sc[1]);
    }
  }

  lemma OwnIff(db1: Catalog, sc: seq<Condition>, db2: Catalog, f: Fast, cs2: seq<Condition>)
    requires db1.Valid() && db2.Valid() && db1.floatBytes == db2.floatBytes && f.FastSelect? && SameCols(db1, db2, f.tab)
    requires Checked(db2, f.tab, Ast(f).cond) == Some(cs2) && forall c :: c in sc ==> RangeTyped(db1, f.tab, c)
    ensures |cs2| == 2 && ValAboveZero(db2, f.tab) == Some(cs2[1])
    ensures RangeRebound(LiftedAll(db1, sc), f) == LiftedAll(db2, cs2) <==>
            |sc| == 2 && IsIdBetween(f.tab, sc[0]) && IntId(db2, f.tab) && sc[1] == cs2[1]
  {
    OwnRange(db2, f);
    ValShape(db2, f.tab);
    assert cs2 == [cs2[0], cs2[1]];
    RangesIff(db1, f.tab, sc, db2, cs2[0], cs2[1], f);
  }

  /** The plan rebound from a filler's is the plan of the statement if and only if the filler fits. */
  lemma ReboundIff(db1: Catalog, s: Stmt, db2: Catalog, f: Fast, p1: Plan<Bytes>, p2: Plan<Bytes>)
    requires db1.Valid() && db2.Valid() && db1.floatBytes == db2.floatBytes && Identify(s) == Some(PatternOf(f))
    requires PlanOf(db1, s) == Some(p1) && PlanOf(db2, Ast(f)) == Some(p2)
    ensures Rebinds(p1, f) && Rebound(p1, f) == p2 <==> Fits(db1, s, db2, f)
  {
    match f
    case FastUpdate(_, _, _) => UpdateIff(db1, s, db2, f, p1, p2);
    case FastDelete(_, _) => DeleteIff(db1, s, db2, f, p1, p2);
    case FastSelect(_, _, _) => SelectIff(db1, s, db2, f, p1, p2);
    case FastInsert(_, _, _, _) => InsertIff(db1, s, db2, f, p1, p2);
  }

  // ---- runs -----------------------------------------------------------------------------------

  /** A statement that the parser reads, or that the fast path takes. */
  datatype Query = Parsed(s: Stmt) | ByFastPath(f: Fast)

  /** One statement that a worker processes, with the catalog at that time. */
  datatype Event = Event(db: Catalog, q: Query)

  type Slots = map<Pattern, Plan<Bytes>>

  function Read(q: Query): Stmt {
    match q
    case Parsed(s) => s
    case ByFastPath(f) => Ast(f)
  }

  /** A statement that is planned fills the empty slot of its pattern; one that the fast path takes
      is not planned if that slot is filled. */
  function After(slots: Slots, e: Event): Slots {
    var s := Read(e.q);
    var p := PlanOf(e.db, s);
    if (e.q.ByFastPath? && PatternOf(e.q.f) in slots) || p.None? || Identify(s).None? || Identify(s).value in slots then slots
    else slots[Identify(s).value := Cloned(p.value)]
  }

  /** A worker's slots after the statements it has processed. */
  function SlotsOf(events: seq<Event>): Slots {
    if events == [] then map[] else After(SlotsOf(events[..|events| - 1]), events[|events| - 1])
  }

  /** The plan that runs: the slot's, cloned and rebound, or the statement's own. Where the slot's plan
      has not the nodes that rebinding casts to there is none. */
  function Executed(slots: Slots, e: Event): Option<Plan<Bytes>> {
    if e.q.ByFastPath? && PatternOf(e.q.f) in slots then
      var p := Cloned(slots[PatternOf(e.q.f)]);
      if Rebinds(p, e.q.f) then Some(Rebound(p, e.q.f)) else None
    else PlanOf(e.db, Read(e.q))
  }

  predicate Fills(e: Event, pat: Pattern) {
    Identify(Read(e.q)) == Some(pat) && PlanOf(e.db, Read(e.q)).Some?
  }

  /** What a slot would hold of a statement's plan. */
  function PlanFor(e: Event): Plan<Bytes> {
    match PlanOf(e.db, Read(e.q))
    case None => NoPlan
    case Some(p) => Cloned(p)
  }

  /** A statement as a slot sees it: whether it fills the slot, and with what. */
  datatype Offer = Offer(fills: bool, plan: Plan<Bytes>)

  function Offers(events: seq<Event>, pat: Pattern): (os: seq<Offer>)
    ensures |os| == |events| && forall i :: 0 <= i < |os| ==> os[i] == Offer(Fills(events[i], pat), PlanFor(events[i]))
  {
    seq(|events|, i requires 0 <= i < |events| => Offer(Fills(events[i], pat), PlanFor(events[i])))
  }

  /** A slot takes the first offer. */
  function Taken(os: seq<Offer>): Option<Plan<Bytes>> {
    if os == [] then None
    else
      var before := Taken(os[..|os| - 1]);
      if before.None? && os[|os| - 1].fills then Some(os[|os| - 1].plan) else before
  }

  ghost predicate IsFirst(os: seq<Offer>, i: nat) {
    i <= |os| && (forall j :: 0 <= j < i ==> !os[j].fills) && (i < |os| ==> os[i].fills)
  }

  lemma {:induction false} FirstTaken(os: seq<Offer>) returns (i: nat)
    ensures IsFirst(os, i)
    ensures Taken(os) == if i < |os| then Some(os[i].plan) else None
  {
    i := 0;
    if os != [] {
      i := FirstTaken(os[..|os| - 1]);
      if i == |os| - 1 && !os[i].fills { i := i + 1; }
    }
  }

  function SlotOf(slots: Slots, pat: Pattern): Option<Plan<Bytes>> {
    if pat in slots then Some(slots[pat]) else None
  }

  lemma OneFills(slots: Slots, e: Event, pat: Pattern)
    ensures SlotOf(After(slots, e), pat) == if pat in slots || !Fills(e, pat) then SlotOf(slots, pat) else Some(PlanFor(e))
  {
    if e.q.ByFastPath? { FastIsIdentified(e.q.f); }
  }

  lemma {:induction false} SlotIsTaken(events: seq<Event>, pat: Pattern)
    ensures SlotOf(SlotsOf(events), pat) == Taken(Offers(events, pat))
  {
    if events != [] {
      var n := |events| - 1;
      SlotIsTaken(events[..n], pat);
      OneFills(SlotsOf(events[..n]), events[n], pat);
      assert Offers(events, pat)[..n] == Offers(events[..n], pat);
    }
  }

  /** A slot holds the plan of the first statement of its pattern that was planned. */
  lemma FirstFills(events: seq<Event>, pat: Pattern) returns (i: nat)
    ensures i <= |events| && (forall j :: 0 <= j < i ==> !Fills(events[j], pat))
    ensures pat in SlotsOf(events) <==> i < |events|
    ensures i < |events| ==> Fills(events[i], pat) && SlotsOf(events)[pat] == PlanFor(events[i])
  {
    SlotIsTaken(events, pat);
    i := FirstTaken(Offers(events, pat));
    forall j | 0 <= j < i ensures !Fills(events[j], pat) {
      assert !Offers(events, pat)[j].fills;
    }
  }

  /** A plan that can be rebound has only nodes that the cache clones. */
  lemma OwnClone(p: Plan<Bytes>)
    requires p.DMLPlan?
    requires p.sub.NoPlan? || p.sub.ScanPlan? || (p.sub.ProjectionPlan? && p.sub.sub.ScanPlan?)
    ensures Cloned(p) == p
  {
    assert Cloned(p.sub) == p.sub;
  }

  /** Cloning twice on the way changes nothing that rebinding looks at. */
  lemma ClonesRebind(db: Catalog, s: Stmt, f: Fast, p: Plan<Bytes>)
    requires PlanOf(db, s) == Some(p) && Identify(s) == Some(PatternOf(f))
    ensures Rebinds(Cloned(Cloned(p)), f) <==> Rebinds(p, f)
    ensures Rebinds(p, f) ==> Rebound(Cloned(Cloned(p)), f) == Rebound(p, f)
  {
    if s.Select? && (s.more || |s.tabs| != 1) {
      var other: Plan<Bytes>, none: Plan<Bytes> := OtherPlan, NoPlan;
      assert Cloned(other) == none && Cloned(none) == none;
      assert p.sub == ProjectionPlan(TagProjection, other, s.cols);
      assert Cloned(p).sub == ProjectionPlan(TagProjection, NoPlan, s.cols);
      assert Cloned(Cloned(p)).sub == ProjectionPlan(TagProjection, NoPlan, s.cols);
    } else {
      OwnClone(p);
    }
  }

  /** Over any run of a worker: where the slot is filled, a statement of the fast path runs its own plan
      if and only if the statement that filled the slot, in the catalog of that time, fits it. */
  lemma SlotIff(events: seq<Event>, e: Event, own: Plan<Bytes>) returns (i: nat)
    requires forall j :: 0 <= j < |events| ==> events[j].db.Valid() && events[j].db.floatBytes == e.db.floatBytes
    requires e.db.Valid() && e.q.ByFastPath? && PatternOf(e.q.f) in SlotsOf(events) && PlanOf(e.db, Ast(e.q.f)) == Some(own)
    ensures i < |events| && Fills(events[i], PatternOf(e.q.f)) && forall j :: 0 <= j < i ==> !Fills(events[j], PatternOf(e.q.f))
    ensures Executed(SlotsOf(events), e) == Some(own) <==> Fits(events[i].db, Read(events[i].q), e.db, e.q.f)
  {
    i := FirstFills(events, PatternOf(e.q.f));
    var s := Read(events[i].q);
    var p1 := PlanOf(events[i].db, s).value;
    ClonesRebind(events[i].db, s, e.q.f, p1);
    ReboundIff(events[i].db, s, e.db, e.q.f, p1, own);
  }

  // ---- a run that goes wrong --------------------------------------------------------------------

  function ExampleCatalog(floatBytes: real -> Bytes): Catalog {
    Catalog(map["t" := Table([ColMeta("id", TypeInt, 4), ColMeta("val", TypeInt, 4)], [])], floatBytes)
  }

  /** UPDATE t SET val = 1 WHERE val > 3. */
  function ExampleFiller(): Stmt {
    Update("t", [("val", IntLit(1))], Some(CondTree.Binary(CondTree.LCol(Col("", "val")), OpGt, CondTree.RVal(IntV(3)))))
  }

  /** After it UPDATE t SET val = 5 WHERE id = 7 runs WHERE val > 7, though both are on one table. */
  lemma WrongWhere(floatBytes: real -> Bytes)
    ensures var db := ExampleCatalog(floatBytes);
            var slots, e := SlotsOf([Event(db, Parsed(ExampleFiller()))]), Event(db, ByFastPath(FastUpdate("t", 5, 7)));
            && Executed(slots, e).Some? && Executed(slots, e).value.DMLPlan?
            && Executed(slots, e).value.conds == [Cond(Col("t", "val"), OpGt, true, CondTree.NO_COL,
                                                       Val(I(7), false, Some(IntBytes(7))), Val(I(0), false, None), [], false, [])]
            && !Fits(db, ExampleFiller(), db, e.q.f)
  {
    var db := ExampleCatalog(floatBytes);
    var p := ExamplePlan(floatBytes);
    ExampleSlots(db, p);
    OwnClone(p);
    ExampleRebound(p, p.conds[0]);
  }

  lemma ExampleRebound(p: Plan<Bytes>, c: Cond<Bytes>)
    requires Rebinds(p, FastUpdate("t", 5, 7)) && p.conds == [c]
    ensures Rebound(p, FastUpdate("t", 5, 7)).conds == [c.(rhsVal := ReboundInt(c.rhsVal, 7))]
  {
    assert [c][1..] == [];
  }

  /** The filler's plan has its own condition, val > 3. */
  lemma ExamplePlan(floatBytes: real -> Bytes) returns (p: Plan<Bytes>)
    ensures PlanOf(ExampleCatalog(floatBytes), ExampleFiller()) == Some(p) && Rebinds(p, FastUpdate("t", 5, 7))
    ensures p.conds == [Cond(Col("t", "val"), OpGt, true, CondTree.NO_COL, Val(I(3), false, Some(IntBytes(3))), Val(I(0), false, None), [], false, [])]
    ensures !OnOneId(ExampleCatalog(floatBytes), "t", ExampleFiller().cond)
  {
    var db := ExampleCatalog(floatBytes);
    var c := CondTree.Leaf(Col("", "val"), OpGt, true, CondTree.NO_COL, IntV(3), CondTree.NO_VALUE, [], false);
    var c' := c.(lhs := Col("t", "val"));
    assert CondTree.Traverse(ExampleFiller().cond.value) == [c];
    ExampleMeta(floatBytes);
    OneChecked(db, "t", c, c');
    assert SetClauses(db, "t", []) == Some([]);
    assert ExampleFiller().sets[1..] == [];
    OneSet(db, "t", ExampleFiller().sets);
    p := PlanOf(db, ExampleFiller()).value;
    assert LiftedAll(db, [c']) == [Lifted(db, c')] && Lifted(db, c').inValues == [] && Lifted(db, c').children == [];
  }

  lemma ExampleMeta(floatBytes: real -> Bytes)
    ensures ExampleCatalog(floatBytes).MetaOf(Col("t", "val")) == Some(ColMeta("val", TypeInt, 4))
  {
    var cols := ExampleCatalog(floatBytes).tables["t"].cols;
    assert cols[0].name == "id" && cols[1..] == [ColMeta("val", TypeInt, 4)];
    assert Named(cols[1..], "val") == Some(ColMeta("val", TypeInt, 4));
  }

  lemma OneChecked(db: Catalog, tab: string, c: Condition, c': Condition)
    requires CheckOne(db, tab, c) == Some(c')
    ensures CheckList(db, tab, [c]) == Some([c'])
  {
    assert [c][1..] == [] && CheckList(db, tab, []) == Some([]);
    assert [c'] + [] == [c'];
  }

  lemma ExampleSlots(db: Catalog, p: Plan<Bytes>)
    requires PlanOf(db, ExampleFiller()) == Some(p)
    ensures SlotsOf([Event(db, Parsed(ExampleFiller()))]) == map[UpdateById := Cloned(p)]
  {
    var e := Event(db, Parsed(ExampleFiller()));
    assert [e][..0] == [] && SlotsOf([e]) == After(SlotsOf([]), e);
    assert SlotsOf([]) == map[];
  }
}
