/** Planning preserves a query's meaning: whatever the switches, the estimates and the algorithm,
    a plan yields the cross product filtered by the query's conditions. */
module PlanResult {
  import opened CharColumns
  import opened Conditions
  import opened JoinAlgebra
  import opened JoinBags
  import opened JoinKeys
  import opened JoinResult
  import opened JoinSpec
  import opened PlanMeaning
  import opened Planner
  import opened SeqScan

  /** The two sides of a join whose children scan the tables `t` and `u`. */
  function SidesOf(db: Database, t: string, u: string): Sides {
    Sides(t, db.ColsOf(t), db.ColsOf(u))
  }

  /** The join of a plan as an executor runs it. */
  function RunOf(db: Database, plan: Plan): JoinRun
    requires plan.JoinPlan?
  {
    JoinRun(plan.conds, Inner, map[], db.chars)
  }

  function ScanRows(db: Database, plan: Plan): seq<Row>
    requires plan.ScanPlan?
  {
    Scan(plan.conds, db.RowsOf(plan.tab))
  }

  predicate TwoScans(plan: Plan) {
    plan.JoinPlan? && plan.left.ScanPlan? && plan.right.ScanPlan?
  }

  /** What a plan of one join of two scans may yield. */
  ghost predicate Yields(db: Database, plan: Plan, out: seq<Row>) {
    && TwoScans(plan)
    && JoinYields(SidesOf(db, plan.left.tab, plan.right.tab), plan.tag, RunOf(db, plan),
                  ScanRows(db, plan.left), ScanRows(db, plan.right), out)
  }

  /** A merge join is used only where it can be trusted. */
  ghost predicate MergeSafe(db: Database, plan: Plan)
    requires TwoScans(plan)
  {
    plan.tag.SortMerge? ==>
      MergeOk(SidesOf(db, plan.left.tab, plan.right.tab), RunOf(db, plan), ScanRows(db, plan.left), ScanRows(db, plan.right))
  }

  /** CHAR columns that the query compares have one length. */
  ghost predicate LengthsFit(db: Database, conds: seq<Condition>) {
    forall c :: c in conds ==> db.chars.Fits(c)
  }

  // ---- whichever algorithm, the join's rows -------------------------------------

  lemma {:induction false} ScanIn(conds: seq<Condition>, rows: seq<Row>, row: Row)
    ensures row in Scan(conds, rows) <==> row in rows && CheckAllConds(conds, row)
  {
    if rows != [] { ScanIn(conds, rows[1..], row); }
  }

  lemma SidesValid(db: Database, t: string, u: string)
    requires t != u
    ensures SidesOf(db, t, u).Valid()
  {
  }

  lemma ScanReady(db: Database, tab: string, conds: seq<Condition>, row: Row)
    requires db.Valid() && row in Scan(conds, db.RowsOf(tab))
    ensures row.Keys == db.ColsOf(tab) && db.chars.RowOk(row)
  {
    ScanIn(conds, db.RowsOf(tab), row);
    assert db.RowOk(row, tab);
  }

  lemma ScansReady(db: Database, plan: Plan)
    requires db.Valid() && TwoScans(plan) && plan.left.tab != plan.right.tab && LengthsFit(db, plan.conds)
    requires SidesOf(db, plan.left.tab, plan.right.tab).Crossing(EquiConds(plan.conds))
    ensures Ready(SidesOf(db, plan.left.tab, plan.right.tab), RunOf(db, plan), ScanRows(db, plan.left), ScanRows(db, plan.right))
  {
    SidesValid(db, plan.left.tab, plan.right.tab);
    forall row | row in ScanRows(db, plan.left) ensures row.Keys == db.ColsOf(plan.left.tab) && db.chars.RowOk(row) {
      ScanReady(db, plan.left.tab, plan.left.conds, row);
    }
    forall row | row in ScanRows(db, plan.right) ensures row.Keys == db.ColsOf(plan.right.tab) && db.chars.RowOk(row) {
      ScanReady(db, plan.right.tab, plan.right.conds, row);
    }
  }

  /** The join that a plan of two scans means. */
  function MeantRows(db: Database, plan: Plan): seq<Row>
    requires TwoScans(plan)
  {
    ConditionJoin(plan.conds, Inner, map[]).Rows(ScanRows(db, plan.left), ScanRows(db, plan.right))
  }

  /** Whatever its algorithm, a plan's rows are a permutation of the join its conditions mean. */
  lemma AnyAlgorithm(db: Database, plan: Plan, out: seq<Row>)
    requires db.Valid() && Yields(db, plan, out) && MergeSafe(db, plan) && plan.left.tab != plan.right.tab
    requires LengthsFit(db, plan.conds) && SidesOf(db, plan.left.tab, plan.right.tab).Crossing(EquiConds(plan.conds))
    ensures multiset(out) == multiset(MeantRows(db, plan))
  {
    ScansReady(db, plan);
    JoinResult.AnyAlgorithm(SidesOf(db, plan.left.tab, plan.right.tab), plan.tag, RunOf(db, plan),
                            ScanRows(db, plan.left), ScanRows(db, plan.right), out);
  }

  // ---- the plan of a query ---------------------------------------------------------

  /** The conditions of a query other than comparisons of two columns of its second table. */
  function Kept(q: Query): seq<Condition>
    requires |q.tables| == 2
  {
    var u := q.tables[1];
    Select(q.conds, c => !Dropped(c, u))
  }

  function Filtered(db: Database, q: Query, conds: seq<Condition>): seq<Row>
    requires |q.tables| == 2
  {
    Scan(conds, Cross(db.RowsOf(q.tables[0]), db.RowsOf(q.tables[1])))
  }

  lemma AdmitsIsKept(db: Database, q: Query, l: Row, r: Row)
    requires |q.tables| == 2
    ensures db.Admits(q, l, r) <==> CheckAllConds(Kept(q), l + r)
  {
    var u := q.tables[1];
    SelectIn(q.conds, c => !Dropped(c, u));
    Database.CheckIn(Kept(q), l + r);
  }

  lemma OneCrosses(db: Database, q: Query, c: Condition)
    requires db.Checked(q) && c in db.JoinConds(q)
    ensures c in q.conds && c.lhs in db.schema && !Pops(q.tables[0], c) && !Pops(q.tables[1], c)
    ensures !c.isRhsVal && c.op.OpEq? ==> c.rhs in db.schema && c.lhs.tab != c.rhs.tab && c.rhs.tab in {q.tables[0], q.tables[1]}
    ensures c.lhs.tab in {q.tables[0], q.tables[1]}
  {
    db.SortedOut(q, c);
    assert db.CondOk(c, q.tables[0], q.tables[1]);
  }

  /** Equi-conditions of the join have one column on each side. */
  lemma JoinCrosses(db: Database, q: Query, t: string, u: string)
    requires db.Checked(q) && {t, u} == {q.tables[0], q.tables[1]}
    ensures SidesOf(db, t, u).Crossing(EquiConds(db.JoinConds(q)))
  {
    var sides := SidesOf(db, t, u);
    forall c | c in EquiConds(db.JoinConds(q)) ensures sides.LeftCol(c) in sides.leftCols && sides.RightCol(c) in sides.rightCols {
      OneCrosses(db, q, c);
    }
  }

  function CrossJoin(q: Query): Join
    requires |q.tables| == 2
  {
    Join((l: Row, r: Row) => CheckAllConds(Kept(q), l + r), Inner, map[])
  }

  lemma PairChecks(db: Database, q: Query, l: Row, r: Row)
    requires db.Valid() && db.Checked(q) && l in db.RowsOf(q.tables[0]) && r in db.RowsOf(q.tables[1])
    ensures CheckAllConds(Kept(q), l + r) <==>
            CheckAllConds(db.First(q), l) && CheckAllConds(db.Second(q), r) && AllHold(db.JoinConds(q), l, r)
    ensures AllHold(db.JoinConds(q), l, r) <==> AllHold(db.JoinConds(q), r, l)
    ensures l + r == r + l
  {
    assert db.RowOk(l, q.tables[0]) && db.RowOk(r, q.tables[1]);
    assert l.Keys !! r.Keys;
    db.Checks(q, l, r);
    AdmitsIsKept(db, q, l, r);
  }

  /** Filters pushed down and the join conditions checked in the join: the filtered cross product. */
  lemma PushedJoin(db: Database, q: Query)
    requires db.Valid() && db.Checked(q)
    ensures ConditionJoin(db.JoinConds(q), Inner, map[]).Rows(
              Scan(db.First(q), db.RowsOf(q.tables[0])), Scan(db.Second(q), db.RowsOf(q.tables[1]))) == Filtered(db, q, Kept(q))
  {
    var t, u := db.RowsOf(q.tables[0]), db.RowsOf(q.tables[1]);
    var join := ConditionJoin(db.JoinConds(q), Inner, map[]);
    forall l, r | l in t && r in u
      ensures CrossJoin(q).matches(l, r) <==>
              CheckAllConds(db.First(q), l) && CheckAllConds(db.Second(q), r) && join.matches(l, r)
    {
      PairChecks(db, q, l, r);
    }
    Pushdown(join, CrossJoin(q), db.First(q), db.Second(q), t, u);
    JoinIsFilteredCross(Kept(q), CrossJoin(q), t, u);
  }

  /** With the second table as build side the same rows come out. */
  lemma SwappedJoin(db: Database, q: Query)
    requires db.Valid() && db.Checked(q)
    ensures var join := ConditionJoin(db.JoinConds(q), Inner, map[]);
            var l, r := Scan(db.First(q), db.RowsOf(q.tables[0])), Scan(db.Second(q), db.RowsOf(q.tables[1]));
            multiset(join.Rows(l, r)) == multiset(join.Rows(r, l))
  {
    var t, u := Scan(db.First(q), db.RowsOf(q.tables[0])), Scan(db.Second(q), db.RowsOf(q.tables[1]));
    var join := ConditionJoin(db.JoinConds(q), Inner, map[]);
    forall l, r | l in t && r in u
      ensures (join.matches(l, r) <==> join.matches(r, l)) && l + r == r + l
    {
      ScanIn(db.First(q), db.RowsOf(q.tables[0]), l);
      ScanIn(db.Second(q), db.RowsOf(q.tables[1]), r);
      PairChecks(db, q, l, r);
    }
    Swap(join, join, t, u);
  }

  /** A plan joins the two tables of a query in either order, with the filters that belong to them. */
  ghost predicate Joins(db: Database, q: Query, plan: Plan)
    requires |q.tables| == 2 == |q.joinTree|
  {
    && TwoScans(plan) && plan.conds == db.JoinConds(q) && q.tables[0] != q.tables[1]
    && if plan.left.tab == q.tables[0] then
         plan.right.tab == q.tables[1] && plan.left.conds == db.First(q) && plan.right.conds == db.Second(q)
       else
         plan.left.tab == q.tables[1] && plan.right.tab == q.tables[0] && plan.left.conds == db.Second(q) && plan.right.conds == db.First(q)
  }

  lemma PlanJoins(db: Database, q: Query, s: Settings)
    requires db.Checked(q)
    ensures Joins(db, q, PlanOf(q, s))
  {
    db.TwoTablePlan(q, s);
  }

  /** In either order that is the filtered cross product. */
  lemma MeantIsFiltered(db: Database, q: Query, plan: Plan)
    requires db.Valid() && db.Checked(q) && Joins(db, q, plan)
    ensures multiset(MeantRows(db, plan)) == multiset(Filtered(db, q, Kept(q)))
  {
    PushedJoin(db, q);
    if plan.left.tab != q.tables[0] { SwappedJoin(db, q); }
  }

  lemma PlanCrosses(db: Database, q: Query, plan: Plan)
    requires db.Checked(q) && Joins(db, q, plan)
    ensures SidesOf(db, plan.left.tab, plan.right.tab).Crossing(EquiConds(plan.conds)) && plan.left.tab != plan.right.tab
  {
    JoinCrosses(db, q, plan.left.tab, plan.right.tab);
  }

  lemma JoinLengthsFit(db: Database, q: Query)
    requires db.Checked(q) && LengthsFit(db, q.conds)
    ensures LengthsFit(db, db.JoinConds(q))
  {
    forall c | c in db.JoinConds(q) ensures db.chars.Fits(c) {
      db.SortedOut(q, c);
    }
  }

  /** The main result: whatever the settings, the plan of a checked query of two tables yields the
      cross product filtered by the conditions kept. */
  lemma PlanYieldsQuery(db: Database, q: Query, s: Settings, out: seq<Row>)
    requires db.Valid() && db.Checked(q) && LengthsFit(db, q.conds)
    requires Yields(db, PlanOf(q, s), out) && MergeSafe(db, PlanOf(q, s))
    ensures multiset(out) == multiset(Filtered(db, q, Kept(q)))
  {
    var plan := PlanOf(q, s);
    PlanJoins(db, q, s);
    PlanCrosses(db, q, plan);
    JoinLengthsFit(db, q);
    AnyAlgorithm(db, plan, out);
    MeantIsFiltered(db, q, plan);
  }

  /** Without comparisons of two columns of the second table no condition is lost. */
  lemma NothingDropped(db: Database, q: Query, s: Settings, out: seq<Row>)
    requires db.Valid() && db.Checked(q) && LengthsFit(db, q.conds)
    requires Yields(db, PlanOf(q, s), out) && MergeSafe(db, PlanOf(q, s))
    requires forall c :: c in q.conds ==> !Dropped(c, q.tables[1])
    ensures multiset(out) == multiset(Filtered(db, q, q.conds))
  {
    var u := q.tables[1];
    PlanYieldsQuery(db, q, s, out);
    SelectAll(q.conds, c => !Dropped(c, u));
  }

  lemma {:induction false} SelectAll(conds: seq<Condition>, p: Condition -> bool)
    requires forall c :: c in conds ==> p(c)
    ensures Select(conds, p) == conds
  {
    if conds != [] {
      assert conds[0] in conds;
      assert forall c :: c in conds[1..] ==> c in conds;
      SelectAll(conds[1..], p);
    }
  }

  /** With such a comparison the plan is right exactly when every row pair that passes the other
      conditions passes it too. */
  lemma DroppedIff(db: Database, q: Query, s: Settings, out: seq<Row>)
    requires db.Valid() && db.Checked(q) && LengthsFit(db, q.conds)
    requires Yields(db, PlanOf(q, s), out) && MergeSafe(db, PlanOf(q, s))
    ensures multiset(out) == multiset(Filtered(db, q, q.conds)) <==>
            forall row :: row in Filtered(db, q, Kept(q)) ==> CheckAllConds(q.conds, row)
  {
    var u := q.tables[1];
    PlanYieldsQuery(db, q, s, out);
    SelectIn(q.conds, c => !Dropped(c, u));
    var rows := Cross(db.RowsOf(q.tables[0]), db.RowsOf(q.tables[1]));
    forall row ensures CheckAllConds(q.conds, row) ==> CheckAllConds(Kept(q), row) {
      Database.CheckIn(q.conds, row);
      Database.CheckIn(Kept(q), row);
    }
    StrongerFilter(q.conds, Kept(q), rows);
  }

  lemma {:induction false} StrongerFilter(c: seq<Condition>, d: seq<Condition>, rows: seq<Row>)
    requires forall row :: CheckAllConds(c, row) ==> CheckAllConds(d, row)
    ensures |Scan(c, rows)| <= |Scan(d, rows)|
    ensures (forall row :: row in Scan(d, rows) ==> CheckAllConds(c, row)) ==> Scan(c, rows) == Scan(d, rows)
    ensures multiset(Scan(c, rows)) == multiset(Scan(d, rows)) ==> (forall row :: row in Scan(d, rows) ==> CheckAllConds(c, row))
  {
    forall row | multiset(Scan(c, rows)) == multiset(Scan(d, rows)) && row in Scan(d, rows) ensures CheckAllConds(c, row) {
      assert row in multiset(Scan(c, rows));
      ScanIn(c, rows, row);
    }
    if rows != [] {
      StrongerFilter(c, d, rows[1..]);
      if CheckAllConds(d, rows[0]) { assert Scan(d, rows)[0] == rows[0] && Scan(d, rows)[1..] == Scan(d, rows[1..]); }
      assert forall row :: row in Scan(d, rows[1..]) ==> row in Scan(d, rows);
    }
  }

  // ---- an example of a dropped condition ---------------------------------------------

  const COL_A: Col := Col("t", "a")
  const COL_B: Col := Col("u", "b")
  const COL_C: Col := Col("u", "c")
  const ROW_T: Row := map[COL_A := IntV(0)]
  const ROW_U: Row := map[COL_B := IntV(1), COL_C := IntV(2)]

  function BEqualsC(): Condition {
    Condition(COL_B, OpEq, false, COL_C, IntV(0), IntV(0), [], false, [])
  }

  function ExampleQuery(): Query {
    Query(["t", "u"], [BEqualsC()], [JoinItem("t", InnerJoin, []), JoinItem("u", InnerJoin, [])])
  }

  function ExampleDb(): Database {
    Database(map["t" := [ROW_T], "u" := [ROW_U]], map[COL_A := TypeInt, COL_B := TypeInt, COL_C := TypeInt],
             Chars(map[], (row: Row, c: Col) => (i: nat) => 0))
  }

  lemma ExampleIsChecked()
    ensures ExampleDb().Valid() && ExampleDb().Checked(ExampleQuery()) && LengthsFit(ExampleDb(), ExampleQuery().conds)
  {
    var db := ExampleDb();
    assert db.ColsOf("t") == {COL_A} && db.ColsOf("u") == {COL_B, COL_C};
    assert db.RowsOf("t") == [ROW_T] && db.RowsOf("u") == [ROW_U];
  }

  /** A comparison of two columns of the second table is lost: `u.b = u.c` lets the row with
      b = 1 and c = 2 through. */
  lemma SecondTableComparisonIsLost(s: Settings, out: seq<Row>)
    requires Yields(ExampleDb(), PlanOf(ExampleQuery(), s), out) && MergeSafe(ExampleDb(), PlanOf(ExampleQuery(), s))
    ensures Filtered(ExampleDb(), ExampleQuery(), ExampleQuery().conds) == [] && |out| == 1
  {
    ExampleIsChecked();
    PlanYieldsQuery(ExampleDb(), ExampleQuery(), s, out);
    ExampleRows();
    assert |multiset(out)| == 1;
  }

  lemma ExampleRows()
    ensures Filtered(ExampleDb(), ExampleQuery(), Kept(ExampleQuery())) == [ROW_T + ROW_U]
    ensures Filtered(ExampleDb(), ExampleQuery(), ExampleQuery().conds) == []
  {
    var db, q, row := ExampleDb(), ExampleQuery(), ROW_T + ROW_U;
    var u := q.tables[1];
    SelectNone(q.conds, c => !Dropped(c, u));
    assert db.RowsOf("t") == [ROW_T] && db.RowsOf("u") == [ROW_U];
    OnePair(ROW_T, ROW_U);
    assert !EvalCond(BEqualsC(), row);
    assert BEqualsC() == q.conds[0];
    assert CheckAllConds([], row);
  }

  lemma OnePair(l: Row, r: Row)
    ensures Cross([l], [r]) == [l + r]
    ensures forall conds :: Scan(conds, [l + r]) == if CheckAllConds(conds, l + r) then [l + r] else []
  {
    assert [l][1..] == [] && [r][1..] == [] && [l + r][1..] == [];
    assert Pair(l, [r]) == [l + r];
    forall conds ensures Scan(conds, [l + r]) == if CheckAllConds(conds, l + r) then [l + r] else [] {
      assert Scan(conds, [l + r]) == (if CheckAllConds(conds, l + r) then [l + r] else []) + Scan(conds, []);
    }
  }
}
