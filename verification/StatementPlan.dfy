/** From a parsed statement on one table to its plan: flattening, checking and typing the
    conditions, and planning. */
module StatementPlan {
  import opened Conditions
  import CondTree
  import Planner
  import opened PlanCache

  // ---- statements -------------------------------------------------------------------

  datatype Lit = IntLit(n: int) | FloatLit(r: real) | StrLit(s: Bytes) | BoolLit(b: bool) | NullLit

  /** `more` stands for everything else a SELECT may have: joins, aggregates, DISTINCT, ORDER BY,
      LIMIT. */
  datatype Stmt =
    | Update(tab: string, sets: seq<(string, Lit)>, cond: Option<CondTree.CondExpr>)
    | Delete(tab: string, cond: Option<CondTree.CondExpr>)
    | Select(tabs: seq<string>, cols: seq<Col>, more: bool, forUpdate: bool, cond: Option<CondTree.CondExpr>)
    | Insert(tab: string, colNames: seq<string>, rows: seq<seq<Lit>>)
    | OtherStmt

  /** What the fast path builds without the parser. */
  function Ast(f: Fast): Stmt {
    match f
    case FastUpdate(tab, v, id) =>
      Update(tab, [("val", IntLit(v))], Some(CondTree.Binary(CondTree.LCol(Col("", "id")), OpEq, CondTree.RVal(IntV(id)))))
    case FastDelete(tab, id) =>
      Delete(tab, Some(CondTree.Binary(CondTree.LCol(Col("", "id")), OpEq, CondTree.RVal(IntV(id)))))
    case FastSelect(tab, low, high) =>
      Select([tab], [], false, false,
             Some(CondTree.And([CondTree.Between(Col("", "id"), false, IntV(low), IntV(high)),
                                CondTree.Binary(CondTree.LArith(Col("", "val")), OpGt, CondTree.RVal(IntV(0)))])))
    case FastInsert(tab, id, v, s) => Insert(tab, [], [[IntLit(id), IntLit(v), StrLit(s)]])
  }

  // ---- the catalog ------------------------------------------------------------------

  datatype Table = Table(cols: seq<ColMeta>, indexes: seq<seq<string>>)

  /** The tables, and the four bytes of a FLOAT. */
  datatype Catalog = Catalog(tables: map<string, Table>, floatBytes: real -> Bytes) {

    /** Columns have different names; numbers take four bytes. */
    ghost predicate Valid() {
      && (forall r :: |floatBytes(r)| == 4)
      && forall t, i :: t in tables && 0 <= i < |tables[t].cols| ==>
                          && (tables[t].cols[i].typ.TypeString? || tables[t].cols[i].len == 4)
                          && forall j :: 0 <= j < i ==> tables[t].cols[j].name != tables[t].cols[i].name
    }

    function MetaOf(c: Col): Option<ColMeta> {
      if c.tab in tables then Named(tables[c.tab].cols, c.name) else None
    }

    /** A column as written, with its table; a column without a table is one of `tab`'s. */
    function Resolve(tab: string, c: Col): Option<Col> {
      var full := if c.tab == "" then Col(tab, c.name) else c;
      if MetaOf(full).Some? then Some(full) else None
    }
  }

  function Named(cols: seq<ColMeta>, name: string): (m: Option<ColMeta>)
    ensures m.Some? ==> m.value in cols && m.value.name == name
  {
    if cols == [] then None else if cols[0].name == name then Some(cols[0]) else Named(cols[1..], name)
  }

  function TotalLen(cols: seq<ColMeta>): nat {
    if cols == [] then 0 else cols[0].len + TotalLen(cols[1..])
  }

  // ---- checking conditions --------------------------------------------------------------

  /** A number promoted to a FLOAT column, or cut to an INT one where `cut` says so. */
  function Promoted(v: Value, typ: ColType, cut: bool): Value {
    if typ.TypeFloat? && v.IntV? then FloatV(v.i as real)
    else if cut && typ.TypeInt? && v.FloatV? then IntV(Truncate(v.r))
    else v
  }

  /** A value fits a column's buffer: no string is too long, and numbers take four bytes. */
  predicate FitsBuffer(v: Value, len: nat) {
    match v
    case StrV(s) => |s| <= len
    case _ => len == 4
  }

  predicate NeedsRight(c: Condition) {
    !c.isRhsVal && !c.op.OpIsNull? && !c.op.OpIsNotNull? && !c.op.OpIn? && !c.op.OpNotIn?
  }

  /** The analyzer's check of one condition: its columns with their tables and its values with the
      column's type, or an error. A condition without a left column is not looked at further. */
  function CheckOne(db: Catalog, tab: string, c: Condition): Option<Condition>
    decreases c, |c.children| + 1
  {
    if c.op.OpOr? || c.op.OpNot? then
      match CheckAll(db, tab, c, c.children)
      case None => None
      case Some(children) => Some(c.(children := children))
    else
      var bare := c.lhs == CondTree.NO_COL;
      var lhs := if bare then Some(c.lhs) else db.Resolve(tab, c.lhs);
      var rhs := if NeedsRight(c) then db.Resolve(tab, c.rhs) else Some(c.rhs);
      if lhs.None? || rhs.None? then None
      else if bare then Some(c.(rhs := rhs.value))
      else CheckTyped(db, c.(lhs := lhs.value, rhs := rhs.value))
  }

  function CheckAll(db: Catalog, tab: string, ghost parent: Condition, cs: seq<Condition>): (r: Option<seq<Condition>>)
    requires forall i :: 0 <= i < |cs| ==> cs[i] in parent.children
    decreases parent, |cs|
  {
    if cs == [] then Some([])
    else
      assert cs[0] in parent.children;
      assert forall i :: 0 <= i < |cs[1..]| ==> cs[1..][i] == cs[i + 1];
      match CheckOne(db, tab, cs[0])
      case None => None
      case Some(c) =>
        match CheckAll(db, tab, parent, cs[1..])
        case None => None
        case Some(rest) => Some([c] + rest)
  }

  function CheckTyped(db: Catalog, c: Condition): Option<Condition> {
    match db.MetaOf(c.lhs)
    case None => None
    case Some(m) =>
      if c.op.OpIsNull? || c.op.OpIsNotNull? then Some(c)
      else if c.op.OpLike? || c.op.OpNotLike? then if m.typ.TypeString? then Some(c) else None
      else if c.op.OpBetween? || c.op.OpNotBetween? then
        var v, v2 := Promoted(c.rhsVal, m.typ, false), Promoted(c.rhsVal2, m.typ, false);
        if v.Type() == m.typ && FitsBuffer(v, m.len) && FitsBuffer(v2, m.len) then Some(c.(rhsVal := v, rhsVal2 := v2)) else None
      else if c.op.OpIn? || c.op.OpNotIn? then
        var vs := seq(|c.inValues|, i requires 0 <= i < |c.inValues| => Promoted(c.inValues[i], m.typ, false));
        if forall i :: 0 <= i < |vs| ==> vs[i].Type() == m.typ && FitsBuffer(vs[i], m.len) then Some(c.(inValues := vs)) else None
      else if c.isRhsVal then
        var v := Promoted(c.rhsVal, m.typ, true);
        if v.Type() == m.typ && FitsBuffer(v, m.len) then Some(c.(rhsVal := v)) else None
      else
        var r := db.MetaOf(c.rhs);
        if r.Some? && r.value.typ == m.typ then Some(c) else None
  }

  /** All conditions of a statement on `tab`. */
  function CheckList(db: Catalog, tab: string, cs: seq<Condition>): Option<seq<Condition>> {
    if cs == [] then Some([])
    else
      match CheckOne(db, tab, cs[0])
      case None => None
      case Some(c) =>
        match CheckList(db, tab, cs[1..])
        case None => None
        case Some(rest) => Some([c] + rest)
  }

  function Checked(db: Catalog, tab: string, cond: Option<CondTree.CondExpr>): Option<seq<Condition>> {
    CheckList(db, tab, if cond.Some? then CondTree.Traverse(cond.value) else [])
  }

  // ---- conditions with their buffers -------------------------------------------------------

  function DatumOf(v: Value): Datum {
    match v
    case IntV(n) => I(n)
    case FloatV(r) => F(r)
    case StrV(s) => S(s)
  }

  function Plain(v: Value): Val<Bytes> {
    Val(DatumOf(v), false, None)
  }

  /** A value with its buffer of `len` bytes. */
  function Filled(db: Catalog, v: Value, len: nat): Val<Bytes> {
    Val(DatumOf(v), false,
        Some(match v
             case IntV(n) => IntBytes(n)
             case FloatV(r) => db.floatBytes(r)
             case StrV(s) => if |s| <= len then s + Zeros(len - |s|) else s))
  }

  /** A checked condition as the plan holds it. Values have buffers where the check compares types. */
  function Lifted(db: Catalog, c: Condition): Cond<Bytes>
    decreases c
  {
    var m := db.MetaOf(c.lhs);
    var between := c.op.OpBetween? || c.op.OpNotBetween?;
    var filled := m.Some? && (between || (IsComparison(c.op) && c.isRhsVal));
    Cond(c.lhs, c.op, c.isRhsVal, c.rhs,
         if filled then Filled(db, c.rhsVal, m.value.len) else Plain(c.rhsVal),
         if filled && between then Filled(db, c.rhsVal2, m.value.len) else Plain(c.rhsVal2),
         seq(|c.inValues|, i requires 0 <= i < |c.inValues| =>
           if m.Some? then Filled(db, c.inValues[i], m.value.len) else Plain(c.inValues[i])),
         c.isArith,
         seq(|c.children|, i requires 0 <= i < |c.children| => Lifted(db, c.children[i])))
  }

  function LiftedAll(db: Catalog, cs: seq<Condition>): (r: seq<Cond<Bytes>>)
    ensures |r| == |cs| && forall i :: 0 <= i < |r| ==> r[i] == Lifted(db, cs[i])
  {
    seq(|cs|, i requires 0 <= i < |cs| => Lifted(db, cs[i]))
  }

  function LitVal(l: Lit): Val<Bytes> {
    match l
    case IntLit(n) => Val(I(n), false, None)
    case FloatLit(r) => Val(F(r), false, None)
    case StrLit(s) => Val(S(s), false, None)
    case BoolLit(b) => Val(I(if b then 1 else 0), false, None)
    case NullLit => Val(I(NULL_INT), true, None)
  }

  // ---- planning -------------------------------------------------------------------------------

  /** The columns that conditions fix, in order; they are used if some index has just these. */
  function FixedCols(tab: string, cs: seq<Condition>): seq<string> {
    if cs == [] then []
    else
      var c := cs[0];
      (if !c.isArith && c.lhs.tab == tab && ((c.isRhsVal && c.op.OpEq?) || c.op.OpIsNull? || c.op.OpIsNotNull?) then [c.lhs.name] else [])
      + FixedCols(tab, cs[1..])
  }

  function IndexCols(t: Table, tab: string, cs: seq<Condition>): seq<string> {
    var names := FixedCols(tab, cs);
    if names != [] && names in t.indexes then names else []
  }

  function ScanOf(db: Catalog, tab: string, cs: seq<Condition>): Plan<Bytes>
    requires tab in db.tables
  {
    var t := db.tables[tab];
    var names := IndexCols(t, tab, cs);
    ScanPlan(if names != [] then TagIndexScan else TagSeqScan, tab, LiftedAll(db, cs), LiftedAll(db, cs), names, t.cols,
             TotalLen(t.cols), false)
  }

  function SetClauses(db: Catalog, tab: string, sets: seq<(string, Lit)>): Option<seq<SetClause<Bytes>>> {
    if sets == [] then Some([])
    else
      match db.Resolve(tab, Col("", sets[0].0))
      case None => None
      case Some(c) =>
        match SetClauses(db, tab, sets[1..])
        case None => None
        case Some(rest) => Some([SetClause(c, LitVal(sets[0].1))] + rest)
  }

  function AllCols(db: Catalog, tab: string): seq<Col>
    requires tab in db.tables
  {
    seq(|db.tables[tab].cols|, i requires 0 <= i < |db.tables[tab].cols| => Col(tab, db.tables[tab].cols[i].name))
  }

  function ResolveAll(db: Catalog, tab: string, cols: seq<Col>): Option<seq<Col>> {
    if cols == [] then Some([])
    else
      match db.Resolve(tab, cols[0])
      case None => None
      case Some(c) =>
        match ResolveAll(db, tab, cols[1..])
        case None => None
        case Some(rest) => Some([c] + rest)
  }

  function SelectedCols(db: Catalog, tab: string, cols: seq<Col>): Option<seq<Col>>
    requires tab in db.tables
  {
    if cols == [] then Some(AllCols(db, tab)) else ResolveAll(db, tab, cols)
  }

  /** The conditions that a SELECT's scan gets: reordered, and then those it answers for. */
  function ScanConds(tab: string, cs: seq<Condition>): seq<Condition> {
    Planner.Select(Planner.Reordered(cs), c => Planner.Pops(tab, c))
  }

  /** An index that holds every column asked for. */
  predicate Covers(names: seq<string>, cols: seq<Col>) {
    names != [] && cols != [] && forall i :: 0 <= i < |cols| ==> cols[i].name in names
  }

  function SelectPlan(db: Catalog, tab: string, cols: seq<Col>, cs: seq<Condition>, forUpdate: bool): Plan<Bytes>
    requires tab in db.tables
  {
    var scan := ScanOf(db, tab, ScanConds(tab, cs));
    var only := scan.(indexOnly := Covers(scan.indexCols, cols));
    DMLPlan(TagSelect, ProjectionPlan(TagProjection, only, cols), "", [], [], [], [], forUpdate)
  }

  /** A statement's plan, or an error. A SELECT with more than a scan below its projection has
      some other node there. */
  function PlanOf(db: Catalog, s: Stmt): Option<Plan<Bytes>> {
    match s
    case Update(tab, sets, cond) =>
      var cs, ss := Checked(db, tab, cond), SetClauses(db, tab, sets);
      if tab !in db.tables || cs.None? || ss.None? then None
      else Some(DMLPlan(TagUpdate, ScanOf(db, tab, cs.value), tab, [], LiftedAll(db, cs.value), ss.value, [], false))
    case Delete(tab, cond) =>
      var cs := Checked(db, tab, cond);
      if tab !in db.tables || cs.None? then None
      else Some(DMLPlan(TagDelete, ScanOf(db, tab, cs.value), tab, [], LiftedAll(db, cs.value), [], [], false))
    case Select(tabs, cols, more, forUpdate, cond) =>
      if more || |tabs| != 1 then
        Some(DMLPlan(TagSelect, ProjectionPlan(TagProjection, OtherPlan, cols), "", [], [], [], [], forUpdate))
      else if tabs[0] !in db.tables then None
      else
        var cs, cs' := Checked(db, tabs[0], cond), SelectedCols(db, tabs[0], cols);
        if cs.None? || cs'.None? then None else Some(SelectPlan(db, tabs[0], cs'.value, cs.value, forUpdate))
    case Insert(tab, colNames, rows) =>
      Some(DMLPlan(TagInsert, NoPlan, tab,
                   seq(|rows|, i requires 0 <= i < |rows| => seq(|rows[i]|, j requires 0 <= j < |rows[i]| => LitVal(rows[i][j]))),
                   [], [], colNames, false))
    case OtherStmt => Some(OtherPlan)
  }

  /** The placeholder that flattening puts around several conditions has no columns, and whether its
      right side is a value is never set: if that reads as yes the check lets it through unseen, if as
      no the statement is refused for want of a column. */
  lemma PlaceholderChecked(db: Catalog, tab: string, list: seq<Condition>, isRhsVal: bool)
    requires tab in db.tables ==> forall i :: 0 <= i < |db.tables[tab].cols| ==> db.tables[tab].cols[i].name != ""
    ensures var c := CondTree.Node(OpEq, list).(isRhsVal := isRhsVal);
            CheckOne(db, tab, c) == if isRhsVal then Some(c) else None
  {
    if tab in db.tables { NoName(db.tables[tab].cols, ""); }
  }

  lemma {:induction false} NoName(cols: seq<ColMeta>, name: string)
    requires forall i :: 0 <= i < |cols| ==> cols[i].name != name
    ensures Named(cols, name) == None
  {
    if cols != [] { NoName(cols[1..], name); }
  }
}
