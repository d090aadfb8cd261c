/** The planner: conditions are classified, reordered and pushed down, the build side is chosen,
    and every join gets an algorithm. */
module Planner {
  import opened Conditions

  datatype JoinKind = InnerJoin | LeftJoin | RightJoin

  datatype JoinItem = JoinItem(tab: string, kind: JoinKind, conds: seq<Condition>)

  /** A checked query: its tables, its conditions, and its join tree, whose first entry is the
      first table. Conditions of an ON clause are listed with their table and among `conds`. */
  datatype Query = Query(tables: seq<string>, conds: seq<Condition>, joinTree: seq<JoinItem>)

  datatype Tag = NestLoop | HashJoin | SortMerge

  datatype Plan =
    | ScanPlan(tab: string, conds: seq<Condition>)
    | JoinPlan(tag: Tag, left: Plan, right: Plan, conds: seq<Condition>, kind: JoinKind)

  /** The planner's switches and its estimate of a table's size. */
  datatype Settings = Settings(enableHash: bool, enableNestLoop: bool, enableSortMerge: bool, rowCount: string -> int)

  // ---- classification ---------------------------------------------------------

  /** Conditions on one table: a comparison with a value, or of two columns of one table. */
  predicate IsFilter(c: Condition) {
    c.isRhsVal || c.lhs.tab == c.rhs.tab
  }

  predicate IsEq(c: Condition) {
    c.op.OpEq?
  }

  /** Tests of one column, other than comparisons. */
  predicate IsUnary(op: CompOp) {
    op.OpIsNull? || op.OpIsNotNull? || op.OpIn? || op.OpNotIn? || op.OpLike? || op.OpNotLike? || op.OpBetween? || op.OpNotBetween?
  }

  /** The conditions a table takes for its scan: those on its own columns, and any comparison of
      two columns of one table, whichever table that is. */
  predicate Pops(tab: string, c: Condition) {
    (c.lhs.tab == tab && (c.isRhsVal || IsUnary(c.op))) || (c.lhs.tab == c.rhs.tab && c.rhs.tab != "")
  }

  function Select(conds: seq<Condition>, p: Condition -> bool): seq<Condition> {
    if conds == [] then []
    else if p(conds[0]) then [conds[0]] + Select(conds[1..], p)
    else Select(conds[1..], p)
  }

  lemma {:induction false} SelectIn(conds: seq<Condition>, p: Condition -> bool)
    ensures forall c :: c in Select(conds, p) <==> c in conds && p(c)
  {
    if conds != [] {
      SelectIn(conds[1..], p);
      assert forall c :: c in conds <==> c == conds[0] || c in conds[1..];
    }
  }

  lemma {:induction false} Selects(conds: seq<Condition>, p: Condition -> bool, c: Condition)
    ensures c in Select(conds, p) <==> c in conds && p(c)
  {
    SelectIn(conds, p);
  }

  lemma {:induction false} SelectConcat(a: seq<Condition>, b: seq<Condition>, p: Condition -> bool)
    ensures Select(a + b, p) == Select(a, p) + Select(b, p)
    decreases |a|
  {
    if a == [] {
      assert a + b == b;
    } else {
      SelectConcat(a[1..], b, p);
      assert (a + b)[1..] == a[1..] + b && (a + b)[0] == a[0];
      OneMore(a[0], Select(a[1..], p), Select(b, p));
    }
  }

  lemma OneMore(x: Condition, a: seq<Condition>, b: seq<Condition>)
    ensures ([x] + a) + b == [x] + (a + b)
  {
  }

  /** The selection from the first `n + 1` conditions. */
  lemma SelectNext(conds: seq<Condition>, n: nat, p: Condition -> bool)
    requires n < |conds|
    ensures Select(conds[..n + 1], p) == if p(conds[n]) then Select(conds[..n], p) + [conds[n]] else Select(conds[..n], p)
  {
    assert conds[..n + 1] == conds[..n] + [conds[n]];
    SelectConcat(conds[..n], [conds[n]], p);
    assert [conds[n]][1..] == [];
    assert Select(conds[..n], p) + [] == Select(conds[..n], p);
  }

  /** A stable sort that puts the equalities first. */
  function EqFirst(conds: seq<Condition>): seq<Condition> {
    Select(conds, IsEq) + Select(conds, c => !IsEq(c))
  }

  lemma {:induction false} SelectTwice(conds: seq<Condition>, p: Condition -> bool, q: Condition -> bool)
    requires forall c :: q(c) ==> p(c)
    ensures Select(Select(conds, p), q) == Select(conds, q)
  {
    if conds != [] {
      SelectTwice(conds[1..], p, q);
      assert ([conds[0]] + Select(conds[1..], p))[1..] == Select(conds[1..], p);
    }
  }

  lemma {:induction false} SelectNone(conds: seq<Condition>, p: Condition -> bool)
    requires forall c :: c in conds ==> !p(c)
    ensures Select(conds, p) == []
  {
    if conds != [] {
      assert conds[0] in conds;
      assert forall c :: c in conds[1..] ==> c in conds;
      SelectNone(conds[1..], p);
    }
  }

  lemma {:induction false} SelectBag(conds: seq<Condition>, p: Condition -> bool, q: Condition -> bool)
    requires forall c :: p(c) <==> !q(c)
    ensures multiset(Select(conds, p) + Select(conds, q)) == multiset(conds)
  {
    if conds != [] {
      SelectBag(conds[1..], p, q);
      assert conds == [conds[0]] + conds[1..];
    }
  }

  /** It is a sort (a permutation, equalities before the rest) and it is stable (within each
      class the order is the original one). */
  lemma EqFirstIsStableSort(conds: seq<Condition>)
    ensures multiset(EqFirst(conds)) == multiset(conds)
    ensures forall i, j :: 0 <= i < j < |EqFirst(conds)| && IsEq(EqFirst(conds)[j]) ==> IsEq(EqFirst(conds)[i])
    ensures Select(EqFirst(conds), IsEq) == Select(conds, IsEq)
    ensures Select(EqFirst(conds), c => !IsEq(c)) == Select(conds, c => !IsEq(c))
  {
    var notEq := c => !IsEq(c);
    SelectBag(conds, IsEq, notEq);
    EqFirstOrdered(conds);
    SelectOfTwo(conds, IsEq, notEq, IsEq);
    SelectOfTwo(conds, IsEq, notEq, notEq);
    SelectTwice(conds, IsEq, IsEq);
    SelectTwice(conds, notEq, notEq);
    SelectIn(conds, IsEq);
    SelectIn(conds, notEq);
    SelectNone(Select(conds, notEq), IsEq);
    SelectNone(Select(conds, IsEq), notEq);
  }

  lemma SelectOfTwo(conds: seq<Condition>, p: Condition -> bool, q: Condition -> bool, r: Condition -> bool)
    ensures Select(Select(conds, p) + Select(conds, q), r) == Select(Select(conds, p), r) + Select(Select(conds, q), r)
  {
    SelectConcat(Select(conds, p), Select(conds, q), r);
  }

  lemma EqFirstOrdered(conds: seq<Condition>)
    ensures forall i, j :: 0 <= i < j < |EqFirst(conds)| && IsEq(EqFirst(conds)[j]) ==> IsEq(EqFirst(conds)[i])
  {
    var notEq := c => !IsEq(c);
    var a, b := Select(conds, IsEq), Select(conds, notEq);
    SelectIn(conds, IsEq);
    SelectIn(conds, notEq);
    assert forall i :: 0 <= i < |a| ==> a[i] in a;
    assert forall i :: 0 <= i < |b| ==> b[i] in b;
  }

  /** The conditions in the order the planner goes on with. */
  function Reordered(conds: seq<Condition>): seq<Condition> {
    EqFirst(Select(conds, IsFilter)) + EqFirst(Select(conds, c => !IsFilter(c)))
  }

  /** Reordering keeps every condition as often as it occurs. */
  lemma ReorderedBag(conds: seq<Condition>)
    ensures multiset(Reordered(conds)) == multiset(conds)
  {
    var notFilter := c => !IsFilter(c);
    EqFirstIsStableSort(Select(conds, IsFilter));
    EqFirstIsStableSort(Select(conds, notFilter));
    SelectBag(conds, IsFilter, notFilter);
  }

  lemma ReorderedHas(conds: seq<Condition>, c: Condition)
    ensures c in Reordered(conds) <==> c in conds
  {
    ReorderedBag(conds);
    assert c in conds <==> c in multiset(conds);
    assert c in Reordered(conds) <==> c in multiset(Reordered(conds));
  }

  method LogicalOptimization(query: Query) returns (result: Query)
    ensures result == query.(conds := Reordered(query.conds))
  {
    if query.conds == [] {
      return query;
    }
    var filterConds: seq<Condition>, joinConds: seq<Condition> := [], [];
    ghost var notFilter := c => !IsFilter(c);
    for i := 0 to |query.conds|
      invariant filterConds == Select(query.conds[..i], IsFilter) && joinConds == Select(query.conds[..i], notFilter)
    {
      var cond := query.conds[i];
      SelectNext(query.conds, i, IsFilter);
      SelectNext(query.conds, i, notFilter);
      if cond.isRhsVal || cond.lhs.tab == cond.rhs.tab {
        filterConds := filterConds + [cond];
      } else {
        joinConds := joinConds + [cond];
      }
    }
    assert query.conds[..|query.conds|] == query.conds;
    filterConds := EqFirst(filterConds);
    joinConds := EqFirst(joinConds);
    result := query.(conds := filterConds + joinConds);
  }

  // ---- pushdown ---------------------------------------------------------------

  /** Moves the conditions that satisfy `p` out of the list: each is appended to the result and
      erased where it stands. */
  method Extract(conds: seq<Condition>, p: Condition -> bool) returns (taken: seq<Condition>, rest: seq<Condition>)
    ensures taken == Select(conds, p) && rest == Select(conds, c => !p(c))
  {
    ghost var leave := c => !p(c);
    ghost var n := 0;
    taken, rest := [], conds;
    var it := 0;
    while it < |rest|
      invariant n <= |conds| && it <= |rest|
      invariant taken == Select(conds[..n], p)
      invariant rest[..it] == Select(conds[..n], leave) && rest[it..] == conds[n..]
      decreases |rest| - it
    {
      SelectNext(conds, n, p);
      SelectNext(conds, n, leave);
      assert rest[it] == rest[it..][0] == conds[n];
      assert rest[it + 1..] == rest[it..][1..] == conds[n + 1..];
      if p(rest[it]) {
        taken := taken + [rest[it]];
        rest := Erased(rest, it);
      } else {
        it := it + 1;
      }
      n := n + 1;
    }
    assert conds[n..] == [] && conds[..n] == conds && rest[..it] == rest;
  }

  function Erased(s: seq<Condition>, it: nat): (r: seq<Condition>)
    requires it < |s|
    ensures |r| == |s| - 1 && r[..it] == s[..it] && r[it..] == s[it + 1..]
  {
    s[..it] + s[it + 1..]
  }

  /** The conditions a table takes, and those it leaves. */
  method PopConds(conds: seq<Condition>, tab: string) returns (solved: seq<Condition>, rest: seq<Condition>)
    ensures solved == Select(conds, c => Pops(tab, c)) && rest == Select(conds, c => !Pops(tab, c))
  {
    var p := c => Pops(tab, c);
    solved, rest := Extract(conds, p);
    SelectSame(conds, p, c => Pops(tab, c));
    SelectSame(conds, c => !p(c), c => !Pops(tab, c));
  }

  lemma {:induction false} SelectSame(conds: seq<Condition>, p: Condition -> bool, q: Condition -> bool)
    requires forall c :: p(c) <==> q(c)
    ensures Select(conds, p) == Select(conds, q)
  {
    if conds != [] { SelectSame(conds[1..], p, q); }
  }

  /** A scan for each table, each with the conditions it takes from what the tables before left. */
  function ScanPlans(tables: seq<string>, conds: seq<Condition>): (seq<Plan>, seq<Condition>) {
    if tables == [] then ([], conds)
    else
      var t := tables[0];
      var more := ScanPlans(tables[1..], Select(conds, c => !Pops(t, c)));
      ([ScanPlan(t, Select(conds, c => Pops(t, c)))] + more.0, more.1)
  }

  // ---- the join tree ------------------------------------------------------------

  function GetScan(scans: seq<Plan>, tab: string): Option<Plan> {
    if scans == [] then None
    else if scans[0].ScanPlan? && scans[0].tab == tab then Some(scans[0])
    else GetScan(scans[1..], tab)
  }

  predicate IsEquiCond(c: Condition) {
    !c.isRhsVal && c.op.OpEq? && c.lhs.tab != c.rhs.tab && c.lhs.tab != "" && c.rhs.tab != ""
  }

  method IsEquiJoin(conds: seq<Condition>) returns (isEqui: bool)
    ensures isEqui <==> exists c :: c in conds && IsEquiCond(c)
  {
    for i := 0 to |conds|
      invariant forall x :: 0 <= x < i ==> !IsEquiCond(conds[x])
    {
      if !conds[i].isRhsVal && conds[i].op.OpEq? && conds[i].lhs.tab != conds[i].rhs.tab && conds[i].lhs.tab != "" && conds[i].rhs.tab != "" {
        assert conds[i] in conds && IsEquiCond(conds[i]);
        return true;
      }
    }
    isEqui := false;
  }

  /** Of two base tables the smaller is to be built into the hash table. */
  predicate Swaps(left: Plan, right: Plan, s: Settings) {
    left.ScanPlan? && right.ScanPlan? && s.rowCount(left.tab) > s.rowCount(right.tab)
  }

  function Joined(left: Plan, right: Plan, conds: seq<Condition>, kind: JoinKind, s: Settings): Plan {
    if s.enableHash && exists c :: c in conds && IsEquiCond(c) then
      if Swaps(left, right, s) then JoinPlan(HashJoin, right, left, conds, kind) else JoinPlan(HashJoin, left, right, conds, kind)
    else if !s.enableNestLoop && s.enableSortMerge then JoinPlan(SortMerge, left, right, conds, kind)
    else JoinPlan(NestLoop, left, right, conds, kind)
  }

  method ChooseJoin(left: Plan, right: Plan, conds: seq<Condition>, s: Settings) returns (first: Plan, second: Plan, tag: Tag)
    ensures forall kind :: JoinPlan(tag, first, second, conds, kind) == Joined(left, right, conds, kind, s)
  {
    first, second := left, right;
    var isEqui := IsEquiJoin(conds);
    if isEqui && s.enableHash {
      if left.ScanPlan? && right.ScanPlan? {
        if s.rowCount(left.tab) > s.rowCount(right.tab) {
          first, second := right, left;
        }
      }
      tag := HashJoin;
    } else if !s.enableNestLoop && s.enableSortMerge {
      tag := SortMerge;
    } else {
      tag := NestLoop;
    }
  }

  /** The tables of the join tree joined one after the other; each join takes its ON conditions
      and all comparisons of columns that are left. */
  function JoinSteps(plan: Plan, items: seq<JoinItem>, scans: seq<Plan>, conds: seq<Condition>, s: Settings): Plan
    decreases |items|
  {
    if items == [] then plan
    else
      match GetScan(scans, items[0].tab)
      case None => JoinSteps(plan, items[1..], scans, conds, s)
      case Some(right) =>
        var joinConds := items[0].conds + Select(conds, (c: Condition) => !c.isRhsVal);
        JoinSteps(Joined(plan, right, joinConds, items[0].kind, s), items[1..], scans, Select(conds, (c: Condition) => c.isRhsVal), s)
  }

  /** The join tree lists the tables. */
  ghost predicate TreeOk(query: Query) {
    query.tables != [] && |query.joinTree| == |query.tables| && forall i :: 0 <= i < |query.tables| ==> query.joinTree[i].tab == query.tables[i]
  }

  /** Scans of all tables, joined in the order of the join tree. */
  function OneRel(query: Query, s: Settings): Plan
    requires query.tables != []
  {
    var scans := ScanPlans(query.tables, query.conds);
    if |query.tables| == 1 then scans.0[0]
    else
      match GetScan(scans.0, query.tables[0])
      case None => ScanPlan(query.tables[0], [])
      case Some(first) =>
        JoinSteps(first, if query.joinTree == [] then [] else query.joinTree[1..], scans.0, scans.1, s)
  }

  /** The plan of a query. */
  function PlanOf(query: Query, s: Settings): Plan
    requires query.tables != []
  {
    OneRel(query.(conds := Reordered(query.conds)), s)
  }

  method MakeScans(tables: seq<string>, conds: seq<Condition>) returns (scans: seq<Plan>, rest: seq<Condition>)
    ensures (scans, rest) == ScanPlans(tables, conds)
  {
    scans, rest := [], conds;
    for i := 0 to |tables|
      invariant scans + ScanPlans(tables[i..], rest).0 == ScanPlans(tables, conds).0
      invariant ScanPlans(tables[i..], rest).1 == ScanPlans(tables, conds).1
    {
      assert tables[i..][1..] == tables[i + 1..];
      var currConds;
      ghost var before, was := rest, scans;
      currConds, rest := PopConds(rest, tables[i]);
      scans := scans + [ScanPlan(tables[i], currConds)];
      assert was + ([ScanPlan(tables[i], currConds)] + ScanPlans(tables[i + 1..], rest).0) == scans + ScanPlans(tables[i + 1..], rest).0;
    }
    assert tables[|tables|..] == [] && scans + [] == scans;
  }

  method FindScan(scans: seq<Plan>, tab: string) returns (scan: Option<Plan>)
    ensures scan == GetScan(scans, tab)
  {
    for i := 0 to |scans|
      invariant GetScan(scans[i..], tab) == GetScan(scans, tab)
    {
      assert scans[i..][1..] == scans[i + 1..];
      if scans[i].ScanPlan? && scans[i].tab == tab {
        return Some(scans[i]);
      }
    }
    assert scans[|scans|..] == [];
    scan := None;
  }

  method MakeOneRel(query: Query, s: Settings) returns (plan: Plan)
    requires TreeOk(query)
    ensures plan == OneRel(query, s)
  {
    var scans, conds := MakeScans(query.tables, query.conds);
    if |query.tables| == 1 {
      plan := scans[0];
      return;
    }
    var first := FindScan(scans, query.joinTree[0].tab);
    if first.None? { return ScanPlan(query.tables[0], []); }
    plan := first.value;
    ghost var done := JoinSteps(plan, query.joinTree[1..], scans, conds, s);
    for i := 1 to |query.joinTree|
      invariant JoinSteps(plan, query.joinTree[i..], scans, conds, s) == done
    {
      assert query.joinTree[i..][1..] == query.joinTree[i + 1..];
      var item := query.joinTree[i];
      var found := FindScan(scans, item.tab);
      if found.None? { continue; }
      var taken;
      ghost var was := conds;
      var p := (c: Condition) => !c.isRhsVal;
      taken, conds := Extract(conds, p);
      SelectSame(was, p, (c: Condition) => !c.isRhsVal);
      SelectSame(was, c => !p(c), (c: Condition) => c.isRhsVal);
      var left, right, tag := ChooseJoin(plan, found.value, item.conds + taken, s);
      plan := JoinPlan(tag, left, right, item.conds + taken, item.kind);
    }
    assert query.joinTree[|query.joinTree|..] == [];
  }

  /** The plan of a query, in two stages. */
  method PlanQuery(query: Query, s: Settings) returns (plan: Plan)
    requires TreeOk(query)
    ensures plan == PlanOf(query, s)
  {
    var optimized := LogicalOptimization(query);
    plan := MakeOneRel(optimized, s);
  }
}
