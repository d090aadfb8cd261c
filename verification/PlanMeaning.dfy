/** What a plan yields, and that planning a query of two tables preserves its meaning. */
module PlanMeaning {
  import opened CharColumns
  import opened Conditions
  import opened JoinAlgebra
  import opened JoinKeys
  import opened JoinSpec
  import opened MergeResult
  import opened Planner
  import opened SeqScan

  /** A comparison of two columns of the second table `u` is pushed to the first one's scan, which
      has neither column and lets every row pass. */
  predicate Dropped(c: Condition, u: string) {
    c.lhs.tab == u && c.rhs.tab == u
  }

  /** The stored tables, the type of every column, and what is known of CHAR columns. */
  datatype Database = Database(tables: map<string, seq<Row>>, schema: map<Col, ColType>, chars: Chars) {

    function ColsOf(tab: string): set<Col> {
      set c | c in schema && c.tab == tab
    }

    function RowsOf(tab: string): seq<Row> {
      if tab in tables then tables[tab] else []
    }

    ghost predicate RowOk(row: Row, tab: string) {
      row.Keys == ColsOf(tab) && chars.RowOk(row) && forall c :: c in row ==> row[c].Type() == schema[c]
    }

    /** Every row has the columns of its table, with values of their types. */
    ghost predicate Valid() {
      forall tab, row :: row in RowsOf(tab) ==> RowOk(row, tab)
    }

    // ---- checked queries of two tables ---------------------------------------------

    /** What the analyzer lets through as a leaf condition on the tables `t` and `u`. */
    ghost predicate CondOk(c: Condition, t: string, u: string) {
      && c.lhs in schema && (c.lhs.tab == t || c.lhs.tab == u)
      && if c.isRhsVal then c.rhs.tab == "" && (IsComparison(c.op) || IsUnary(c.op))
         else if IsComparison(c.op) then c.rhs in schema && (c.rhs.tab == t || c.rhs.tab == u) && schema[c.lhs] == schema[c.rhs]
         else c.rhs.tab == "" && IsUnary(c.op)
    }

    /** A comparison of columns of the two tables. */
    predicate IsCross(c: Condition) {
      IsComparison(c.op) && !c.isRhsVal && c.lhs.tab != c.rhs.tab
    }

    /** An INNER query of two tables over leaf conditions; the ON conditions compare columns of
        the two tables, and are listed among all conditions too. */
    ghost predicate Checked(q: Query) {
      && |q.tables| == 2 && q.tables[0] != q.tables[1] && q.tables[0] != "" && q.tables[1] != ""
      && |q.joinTree| == 2 && q.joinTree[0].tab == q.tables[0] && q.joinTree[1].tab == q.tables[1]
      && q.joinTree[1].kind.InnerJoin?
      && (forall c :: c in q.conds ==> CondOk(c, q.tables[0], q.tables[1]))
      && (forall c :: c in q.joinTree[1].conds ==> IsCross(c) && c in q.conds)
    }

    // ---- the shape of the plan --------------------------------------------------------

    /** The conditions pushed to the first table, to the second, and left for the join. */
    function First(q: Query): seq<Condition>
      requires |q.tables| == 2
    {
      var t := q.tables[0];
      Select(Reordered(q.conds), c => Pops(t, c))
    }

    function AfterFirst(q: Query): seq<Condition>
      requires |q.tables| == 2
    {
      var t := q.tables[0];
      Select(Reordered(q.conds), c => !Pops(t, c))
    }

    function Second(q: Query): seq<Condition>
      requires |q.tables| == 2
    {
      var u := q.tables[1];
      Select(AfterFirst(q), c => Pops(u, c))
    }

    function AfterSecond(q: Query): seq<Condition>
      requires |q.tables| == 2
    {
      var u := q.tables[1];
      Select(AfterFirst(q), c => !Pops(u, c))
    }

    function JoinConds(q: Query): seq<Condition>
      requires |q.tables| == 2 == |q.joinTree|
    {
      q.joinTree[1].conds + Select(AfterSecond(q), (c: Condition) => !c.isRhsVal)
    }

    /** The plan of a query of two tables is one join of two scans. */
    lemma TwoTablePlan(q: Query, s: Settings)
      requires Checked(q)
      ensures PlanOf(q, s) == Joined(ScanPlan(q.tables[0], First(q)), ScanPlan(q.tables[1], Second(q)), JoinConds(q), InnerJoin, s)
    {
      var t, u := q.tables[0], q.tables[1];
      var first, second := ScanPlan(t, First(q)), ScanPlan(u, Second(q));
      assert q.tables[1..] == [u] && [u][1..] == [];
      assert ScanPlans([u], AfterFirst(q)) == ([second] + [], AfterSecond(q));
      assert ScanPlans(q.tables, Reordered(q.conds)) == ([first] + ([second] + []), AfterSecond(q));
      var scans := [first] + ([second] + []);
      assert scans[0] == first && scans[1..] == [second] + [] && ([second] + [])[0] == second;
      assert GetScan(scans, t) == Some(first) && GetScan(scans, u) == Some(second);
      assert q.joinTree[1..] == [q.joinTree[1]] && [q.joinTree[1]][1..] == [];
      var items, j := [q.joinTree[1]], Joined(first, second, JoinConds(q), InnerJoin, s);
      assert JoinSteps(first, items, scans, AfterSecond(q), s) ==
             JoinSteps(j, items[1..], scans, Select(AfterSecond(q), (c: Condition) => c.isRhsVal), s);
    }

    // ---- each condition is checked at the right place ------------------------------------

    lemma SortedOut(q: Query, c: Condition)
      requires Checked(q)
      ensures c in First(q) <==> c in q.conds && Pops(q.tables[0], c)
      ensures c in Second(q) <==> c in q.conds && !Pops(q.tables[0], c) && Pops(q.tables[1], c)
      ensures c in JoinConds(q) <==> c in q.conds && !Pops(q.tables[0], c) && !Pops(q.tables[1], c)
    {
      var t, u := q.tables[0], q.tables[1];
      ReorderedHas(q.conds, c);
      Selects(Reordered(q.conds), c => Pops(t, c), c);
      Selects(Reordered(q.conds), c => !Pops(t, c), c);
      Selects(AfterFirst(q), c => Pops(u, c), c);
      Selects(AfterFirst(q), c => !Pops(u, c), c);
      Selects(AfterSecond(q), (c: Condition) => !c.isRhsVal, c);
      if c in q.conds { assert CondOk(c, t, u); }
    }

    ghost predicate OnPair(l: Row, r: Row, t: string, u: string) {
      t != u && t != "" && u != "" && RowOk(l, t) && RowOk(r, u)
    }

    /** A pushed condition means on the table's row what it means on the glued row. */
    lemma Pushed(c: Condition, l: Row, r: Row, t: string, u: string)
      requires CondOk(c, t, u) && OnPair(l, r, t, u)
      ensures Pops(t, c) && !Dropped(c, u) ==> EvalCond(c, l) == EvalCond(c, l + r)
      ensures Dropped(c, u) ==> EvalCond(c, l)
      ensures !Pops(t, c) && Pops(u, c) ==> EvalCond(c, r) == EvalCond(c, l + r)
    {
    }

    /** The join's evaluator agrees with the scan's on the glued row, whichever side is left. */
    lemma CrossMeans(c: Condition, l: Row, r: Row, t: string, u: string)
      requires CondOk(c, t, u) && OnPair(l, r, t, u) && !Pops(t, c) && !Pops(u, c)
      ensures IsCross(c)
      ensures JoinCond(c, l.Keys + r.Keys) && (EvalPair(c, l, r) <==> EvalCond(c, l + r))
      ensures JoinCond(c, r.Keys + l.Keys) && (EvalPair(c, r, l) <==> EvalCond(c, l + r))
    {
    }

    static lemma CheckIn(cs: seq<Condition>, row: Row)
      ensures CheckAllConds(cs, row) <==> forall c :: c in cs ==> EvalCond(c, row)
    {
      assert forall i :: 0 <= i < |cs| ==> cs[i] in cs;
    }

    static lemma HoldIn(cs: seq<Condition>, l: Row, r: Row)
      requires forall c :: c in cs ==> JoinCond(c, l.Keys + r.Keys)
      ensures AllHold(cs, l, r) <==> forall c :: c in cs ==> EvalPair(c, l, r)
    {
      assert forall i :: 0 <= i < |cs| ==> cs[i] in cs;
    }

    predicate Admits(q: Query, l: Row, r: Row)
      requires |q.tables| == 2
    {
      forall c :: c in q.conds && !Dropped(c, q.tables[1]) ==> EvalCond(c, l + r)
    }

    /** Two filters and the join conditions together check every condition but the dropped ones. */
    lemma Checks(q: Query, l: Row, r: Row)
      requires Checked(q) && OnPair(l, r, q.tables[0], q.tables[1])
      ensures Admits(q, l, r) <==> CheckAllConds(First(q), l) && CheckAllConds(Second(q), r) && AllHold(JoinConds(q), l, r)
      ensures AllHold(JoinConds(q), l, r) <==> AllHold(JoinConds(q), r, l)
    {
      var t, u := q.tables[0], q.tables[1];
      forall c ensures c in q.conds ==> CondOk(c, t, u) { }
      forall c | c in q.conds ensures Dropped(c, u) ==> Pops(t, c) && EvalCond(c, l) {
        Pushed(c, l, r, t, u);
      }
      CheckedFirst(q, l, r);
      CheckedSecond(q, l, r);
      CheckedJoin(q, l, r);
      if CheckAllConds(First(q), l) && CheckAllConds(Second(q), r) && AllHold(JoinConds(q), l, r) {
        forall c | c in q.conds && !Dropped(c, u) ensures EvalCond(c, l + r) {
          SortedOut(q, c);
        }
      }
    }

    lemma CheckedFirst(q: Query, l: Row, r: Row)
      requires Checked(q) && OnPair(l, r, q.tables[0], q.tables[1])
      ensures CheckAllConds(First(q), l) <==>
              forall c :: c in First(q) && !Dropped(c, q.tables[1]) ==> EvalCond(c, l + r)
      ensures Admits(q, l, r) ==> CheckAllConds(First(q), l)
    {
      var cs, u := First(q), q.tables[1];
      forall c | c in cs
        ensures c in q.conds && (if Dropped(c, u) then EvalCond(c, l) else EvalCond(c, l) == EvalCond(c, l + r))
      {
        SortedOut(q, c);
        Pushed(c, l, r, q.tables[0], u);
      }
      CheckIn(cs, l);
    }

    lemma CheckedSecond(q: Query, l: Row, r: Row)
      requires Checked(q) && OnPair(l, r, q.tables[0], q.tables[1])
      ensures CheckAllConds(Second(q), r) <==> forall c :: c in Second(q) ==> EvalCond(c, l + r)
      ensures Admits(q, l, r) ==> CheckAllConds(Second(q), r)
    {
      var cs, u := Second(q), q.tables[1];
      forall c | c in cs ensures c in q.conds && !Dropped(c, u) && EvalCond(c, r) == EvalCond(c, l + r) {
        SortedOut(q, c);
        Pushed(c, l, r, q.tables[0], u);
      }
      CheckIn(cs, r);
    }

    lemma CheckedJoin(q: Query, l: Row, r: Row)
      requires Checked(q) && OnPair(l, r, q.tables[0], q.tables[1])
      ensures AllHold(JoinConds(q), l, r) <==> forall c :: c in JoinConds(q) ==> EvalCond(c, l + r)
      ensures AllHold(JoinConds(q), r, l) <==> forall c :: c in JoinConds(q) ==> EvalCond(c, l + r)
      ensures Admits(q, l, r) ==> AllHold(JoinConds(q), l, r)
    {
      var cs, u := JoinConds(q), q.tables[1];
      forall c | c in cs
        ensures c in q.conds && !Dropped(c, u)
        ensures JoinCond(c, l.Keys + r.Keys) && (EvalPair(c, l, r) <==> EvalCond(c, l + r))
        ensures JoinCond(c, r.Keys + l.Keys) && (EvalPair(c, r, l) <==> EvalCond(c, l + r))
      {
        SortedOut(q, c);
        CrossMeans(c, l, r, q.tables[0], u);
      }
      HoldIn(cs, l, r);
      HoldIn(cs, r, l);
    }
  }
}
