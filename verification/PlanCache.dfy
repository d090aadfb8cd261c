/** The plan cache: a cached plan is cloned and its parameters are rebound. Values carry a raw
    buffer on the heap; everything else in a plan is copied as a value. */
module PlanCache {
  import opened Conditions

  /** A raw record buffer. */
  class RawRecord {
    var data: seq<int>

    constructor (data: seq<int>)
      ensures this.data == data
    {
      this.data := data;
    }
  }

  /** What a value holds, with its type. What a setter leaves behind of an earlier string is not
      looked at any more and is not kept here. */
  datatype Datum = I(n: int) | F(r: real) | S(s: seq<int>)

  /** Plans with raw buffers of type `B`: references in a plan proper, bytes in its content. */
  datatype Val<B> = Val(datum: Datum, isNull: bool, raw: Option<B>)

  datatype Cond<B> = Cond(lhs: Col, op: CompOp, isRhsVal: bool, rhs: Col, rhsVal: Val<B>, rhsVal2: Val<B>,
                          inValues: seq<Val<B>>, isArith: bool, children: seq<Cond<B>>)

  datatype SetClause<B> = SetClause(lhs: Col, rhs: Val<B>)

  datatype ColMeta = ColMeta(name: string, typ: ColType, len: nat)

  datatype Tag = TagUpdate | TagDelete | TagInsert | TagSelect | TagSeqScan | TagIndexScan | TagProjection

  /** `OtherPlan` is any plan node that the cache does not clone. */
  datatype Plan<B> =
    | NoPlan | OtherPlan
    | DMLPlan(tag: Tag, sub: Plan<B>, tab: string, values: seq<seq<Val<B>>>, conds: seq<Cond<B>>,
              sets: seq<SetClause<B>>, colNames: seq<string>, forUpdate: bool)
    | ProjectionPlan(tag: Tag, sub: Plan<B>, selCols: seq<Col>)
    | ScanPlan(tag: Tag, tab: string, conds: seq<Cond<B>>, fedConds: seq<Cond<B>>, indexCols: seq<string>,
               cols: seq<ColMeta>, len: nat, indexOnly: bool)

  type Bytes = seq<int>

  // ---- the buffers of a plan, and its content ---------------------------------------

  function ValBufs(v: Val<RawRecord>): set<RawRecord> {
    if v.raw.Some? then {v.raw.value} else {}
  }

  function ValsBufs(vs: seq<Val<RawRecord>>): set<RawRecord> {
    if vs == [] then {} else ValBufs(vs[0]) + ValsBufs(vs[1..])
  }

  function CondBufs(c: Cond<RawRecord>): set<RawRecord>
    decreases c, 0
  {
    ValBufs(c.rhsVal) + ValBufs(c.rhsVal2) + ValsBufs(c.inValues) + CondsBufs(c.children)
  }

  function CondsBufs(cs: seq<Cond<RawRecord>>): set<RawRecord>
    decreases cs, 1
  {
    if cs == [] then {} else CondBufs(cs[0]) + CondsBufs(cs[1..])
  }

  function SetsBufs(ss: seq<SetClause<RawRecord>>): set<RawRecord> {
    if ss == [] then {} else ValBufs(ss[0].rhs) + SetsBufs(ss[1..])
  }

  function RowsBufs(rows: seq<seq<Val<RawRecord>>>): set<RawRecord> {
    if rows == [] then {} else ValsBufs(rows[0]) + RowsBufs(rows[1..])
  }

  function Bufs(p: Plan<RawRecord>): set<RawRecord> {
    match p
    case NoPlan => {}
    case OtherPlan => {}
    case DMLPlan(_, sub, _, values, conds, sets, _, _) => Bufs(sub) + RowsBufs(values) + CondsBufs(conds) + SetsBufs(sets)
    case ProjectionPlan(_, sub, _) => Bufs(sub)
    case ScanPlan(_, _, conds, fed, _, _, _, _) => CondsBufs(conds) + CondsBufs(fed)
  }

  function ViewVal(v: Val<RawRecord>): Val<Bytes>
    reads ValBufs(v)
  {
    Val(v.datum, v.isNull, if v.raw.Some? then Some(v.raw.value.data) else None)
  }

  function ViewVals(vs: seq<Val<RawRecord>>): seq<Val<Bytes>>
    reads ValsBufs(vs)
  {
    if vs == [] then [] else [ViewVal(vs[0])] + ViewVals(vs[1..])
  }

  function ViewCond(c: Cond<RawRecord>): Cond<Bytes>
    reads CondBufs(c)
    decreases c, 0
  {
    Cond(c.lhs, c.op, c.isRhsVal, c.rhs, ViewVal(c.rhsVal), ViewVal(c.rhsVal2), ViewVals(c.inValues), c.isArith, ViewConds(c.children))
  }

  function ViewConds(cs: seq<Cond<RawRecord>>): seq<Cond<Bytes>>
    reads CondsBufs(cs)
    decreases cs, 1
  {
    if cs == [] then [] else [ViewCond(cs[0])] + ViewConds(cs[1..])
  }

  function ViewSets(ss: seq<SetClause<RawRecord>>): seq<SetClause<Bytes>>
    reads SetsBufs(ss)
  {
    if ss == [] then [] else [SetClause(ss[0].lhs, ViewVal(ss[0].rhs))] + ViewSets(ss[1..])
  }

  function ViewRows(rows: seq<seq<Val<RawRecord>>>): seq<seq<Val<Bytes>>>
    reads RowsBufs(rows)
  {
    if rows == [] then [] else [ViewVals(rows[0])] + ViewRows(rows[1..])
  }

  /** What a plan says, buffers included. */
  function View(p: Plan<RawRecord>): Plan<Bytes>
    reads Bufs(p)
  {
    match p
    case NoPlan => NoPlan
    case OtherPlan => OtherPlan
    case DMLPlan(tag, sub, tab, values, conds, sets, colNames, forUpdate) =>
      DMLPlan(tag, View(sub), tab, ViewRows(values), ViewConds(conds), ViewSets(sets), colNames, forUpdate)
    case ProjectionPlan(tag, sub, selCols) => ProjectionPlan(tag, View(sub), selCols)
    case ScanPlan(tag, tab, conds, fed, indexCols, cols, len, indexOnly) =>
      ScanPlan(tag, tab, ViewConds(conds), ViewConds(fed), indexCols, cols, len, indexOnly)
  }

  /** Every reference at hand is to an object that exists. */
  lemma Exist(bufs: set<RawRecord>)
    ensures forall o :: o in bufs ==> allocated(o)
  {
  }

  // ---- cloning ----------------------------------------------------------------------

  method CloneValue(src: Val<RawRecord>) returns (v: Val<RawRecord>)
    ensures fresh(ValBufs(v)) && ViewVal(v) == ViewVal(src)
  {
    v := src;
    if src.raw.Some? {
      var raw := new RawRecord(src.raw.value.data);
      v := src.(raw := Some(raw));
    }
  }

  method CloneValues(src: seq<Val<RawRecord>>) returns (vs: seq<Val<RawRecord>>)
    ensures fresh(ValsBufs(vs)) && ViewVals(vs) == ViewVals(src)
  {
    if src == [] {
      vs := [];
    } else {
      var v := CloneValue(src[0]);
      var rest := CloneValues(src[1..]);
      vs := [v] + rest;
      assert vs[1..] == rest;
    }
  }

  /** No two of a condition's parts share a buffer. */
  predicate CondUnshared(c: Cond<RawRecord>) {
    ValBufs(c.rhsVal) !! ValBufs(c.rhsVal2)
    && ValBufs(c.rhsVal) + ValBufs(c.rhsVal2) !! ValsBufs(c.inValues) + CondsBufs(c.children)
  }

  predicate CondsUnshared(cs: seq<Cond<RawRecord>>) {
    cs == [] || (CondUnshared(cs[0]) && CondBufs(cs[0]) !! CondsBufs(cs[1..]) && CondsUnshared(cs[1..]))
  }

  /** The values of a condition. */
  method CloneCondValues(c: Cond<RawRecord>) returns (copy: Cond<RawRecord>)
    ensures fresh(ValBufs(copy.rhsVal) + ValBufs(copy.rhsVal2) + ValsBufs(copy.inValues))
    ensures ValBufs(copy.rhsVal) !! ValBufs(copy.rhsVal2)
    ensures ValBufs(copy.rhsVal) + ValBufs(copy.rhsVal2) !! ValsBufs(copy.inValues)
    ensures copy == c.(rhsVal := copy.rhsVal, rhsVal2 := copy.rhsVal2, inValues := copy.inValues)
    ensures ViewVal(copy.rhsVal) == ViewVal(c.rhsVal) && ViewVal(copy.rhsVal2) == ViewVal(c.rhsVal2)
    ensures ViewVals(copy.inValues) == ViewVals(c.inValues)
  {
    Exist(ValsBufs(c.inValues));
    var v := CloneValue(c.rhsVal);
    var v2 := CloneValue(c.rhsVal2);
    var vs := CloneValues(c.inValues);
    copy := c.(rhsVal := v, rhsVal2 := v2, inValues := vs);
  }

  method CloneCondition(c: Cond<RawRecord>) returns (copy: Cond<RawRecord>)
    ensures fresh(CondBufs(copy)) && ViewCond(copy) == ViewCond(c) && CondUnshared(copy)
    decreases c, 0
  {
    Exist(CondsBufs(c.children));
    var part := CloneCondValues(c);
    ghost var used := ValBufs(part.rhsVal) + ValBufs(part.rhsVal2) + ValsBufs(part.inValues);
    Exist(used);
    Exist(CondBufs(c));
    var children := CloneConditions(c.children);
    assert used !! CondsBufs(children);
    copy := part.(children := children);
  }

  method CloneConditions(conds: seq<Cond<RawRecord>>) returns (result: seq<Cond<RawRecord>>)
    ensures fresh(CondsBufs(result)) && ViewConds(result) == ViewConds(conds) && CondsUnshared(result)
    decreases conds, 1
  {
    if conds == [] {
      result := [];
    } else {
      Exist(CondsBufs(conds));
      var c := CloneCondition(conds[0]);
      Exist(CondBufs(c));
      var rest := CloneConditions(conds[1..]);
      result := [c] + rest;
      assert result[1..] == rest;
    }
  }

  method CloneSetClauses(src: seq<SetClause<RawRecord>>) returns (result: seq<SetClause<RawRecord>>)
    ensures fresh(SetsBufs(result)) && ViewSets(result) == ViewSets(src)
  {
    if src == [] {
      result := [];
    } else {
      Exist(SetsBufs(src));
      var v := CloneValue(src[0].rhs);
      var rest := CloneSetClauses(src[1..]);
      result := [SetClause(src[0].lhs, v)] + rest;
      assert result[1..] == rest;
    }
  }

  method CloneValuesList(src: seq<seq<Val<RawRecord>>>) returns (result: seq<seq<Val<RawRecord>>>)
    ensures fresh(RowsBufs(result)) && ViewRows(result) == ViewRows(src)
  {
    if src == [] {
      result := [];
    } else {
      Exist(RowsBufs(src));
      var row := CloneValues(src[0]);
      Exist(ValsBufs(row));
      var rest := CloneValuesList(src[1..]);
      result := [row] + rest;
      assert result[1..] == rest;
    }
  }

  /** No two parts of a plan share a buffer. */
  predicate Unshared(p: Plan<RawRecord>) {
    match p
    case NoPlan => true
    case OtherPlan => true
    case DMLPlan(_, sub, _, values, conds, sets, _, _) =>
      && Unshared(sub) && CondsUnshared(conds)
      && Bufs(sub) !! CondsBufs(conds) && Bufs(sub) + CondsBufs(conds) !! SetsBufs(sets)
      && Bufs(sub) + CondsBufs(conds) + SetsBufs(sets) !! RowsBufs(values)
    case ProjectionPlan(_, sub, _) => Unshared(sub)
    case ScanPlan(_, _, conds, fed, _, _, _, _) => CondsUnshared(conds) && CondsUnshared(fed) && CondsBufs(conds) !! CondsBufs(fed)
  }

  /** A clone's content: a node that the cache does not clone is gone. */
  function Cloned(p: Plan<Bytes>): Plan<Bytes> {
    match p
    case NoPlan => NoPlan
    case OtherPlan => NoPlan
    case DMLPlan(tag, sub, tab, values, conds, sets, colNames, forUpdate) =>
      DMLPlan(tag, Cloned(sub), tab, values, conds, sets, colNames, forUpdate)
    case ProjectionPlan(tag, sub, selCols) => ProjectionPlan(tag, Cloned(sub), selCols)
    case ScanPlan(_, _, _, _, _, _, _, _) => p
  }

  /** The clone says what the plan says, all its buffers are new, and no two of its parts share one. */
  method ClonePlan(p: Plan<RawRecord>) returns (c: Plan<RawRecord>)
    ensures fresh(Bufs(c)) && View(c) == Cloned(View(p)) && Unshared(c)
    decreases p, 2
  {
    match p
    case NoPlan => c := NoPlan;
    case OtherPlan => c := NoPlan;
    case DMLPlan(_, _, _, _, _, _, _, _) => c := CloneDml(p);
    case ProjectionPlan(tag, sub, selCols) =>
      var sub' := ClonePlan(sub);
      c := ProjectionPlan(tag, sub', selCols);
    case ScanPlan(_, _, _, _, _, _, _, _) => c := CloneScan(p);
  }

  method CloneScan(p: Plan<RawRecord>) returns (c: Plan<RawRecord>)
    requires p.ScanPlan?
    ensures fresh(Bufs(c)) && View(c) == View(p) && Unshared(c)
  {
    Exist(CondsBufs(p.fedConds));
    Exist(CondsBufs(p.conds));
    var conds' := CloneConditions(p.conds);
    Exist(CondsBufs(conds'));
    var fed' := CloneConditions(p.fedConds);
    c := p.(conds := conds', fedConds := fed');
  }

  method CloneDml(p: Plan<RawRecord>) returns (c: Plan<RawRecord>)
    requires p.DMLPlan?
    ensures fresh(Bufs(c)) && View(c) == Cloned(View(p)) && Unshared(c)
    decreases p, 1
  {
    var sub', conds' := CloneBody(p);
    ghost var used := Bufs(sub') + CondsBufs(conds');
    Exist(used);
    Exist(Bufs(p));
    var sets', values' := CloneData(p, used);
    c := p.(sub := sub', values := values', conds := conds', sets := sets');
  }

  /** The plan below and the conditions. */
  method CloneBody(p: Plan<RawRecord>) returns (sub: Plan<RawRecord>, conds: seq<Cond<RawRecord>>)
    requires p.DMLPlan?
    ensures fresh(Bufs(sub)) && fresh(CondsBufs(conds)) && Bufs(sub) !! CondsBufs(conds)
    ensures Unshared(sub) && CondsUnshared(conds)
    ensures View(sub) == Cloned(View(p.sub)) && ViewConds(conds) == ViewConds(p.conds)
    decreases p, 0
  {
    Exist(Bufs(p.sub));
    Exist(CondsBufs(p.conds));
    sub := ClonePlan(p.sub);
    Exist(Bufs(sub));
    conds := CloneConditions(p.conds);
  }

  /** The set clauses and the rows of values, apart from the buffers already in use. */
  method CloneData(p: Plan<RawRecord>, ghost used: set<RawRecord>)
    returns (sets: seq<SetClause<RawRecord>>, values: seq<seq<Val<RawRecord>>>)
    requires p.DMLPlan?
    ensures fresh(SetsBufs(sets)) && fresh(RowsBufs(values))
    ensures used !! SetsBufs(sets) && used + SetsBufs(sets) !! RowsBufs(values)
    ensures ViewSets(sets) == ViewSets(p.sets) && ViewRows(values) == ViewRows(p.values)
  {
    Exist(used + SetsBufs(p.sets) + RowsBufs(p.values));
    sets := CloneSetClauses(p.sets);
    Exist(SetsBufs(sets));
    values := CloneValuesList(p.values);
  }

  // ---- rebinding ----------------------------------------------------------------------

  /** The first bytes are overwritten by the number. */
  function WithInt(data: Bytes, n: int): Bytes {
    if |data| <= 4 then IntBytes(n) else IntBytes(n) + data[4..]
  }

  function ReboundInt(v: Val<Bytes>, n: int): Val<Bytes> {
    Val(I(n), v.isNull, if v.raw.Some? then Some(WithInt(v.raw.value, n)) else None)
  }

  /** Puts a number into a value, and into its buffer in place. */
  method RebindInt(v: Val<RawRecord>, n: int) returns (r: Val<RawRecord>)
    modifies ValBufs(v)
    ensures r.raw == v.raw && ViewVal(r) == ReboundInt(old(ViewVal(v)), n)
  {
    r := v.(datum := I(n));
    if r.raw.Some? {
      r.raw.value.data := WithInt(r.raw.value.data, n);
    }
  }

  function Zeros(n: nat): Bytes {
    seq(n, _ => 0)
  }

  function WithStr(data: Bytes, s: Bytes): Bytes {
    if |s| >= |data| then s[..|data|] else s + Zeros(|data| - |s|)
  }

  function ReboundStr(v: Val<Bytes>, s: Bytes): Val<Bytes> {
    Val(S(s), v.isNull, if v.raw.Some? then Some(WithStr(v.raw.value, s)) else None)
  }

  method RebindStr(v: Val<RawRecord>, s: Bytes) returns (r: Val<RawRecord>)
    modifies ValBufs(v)
    ensures r.raw == v.raw && ViewVal(r) == ReboundStr(old(ViewVal(v)), s)
  {
    r := v.(datum := S(s));
    if r.raw.Some? {
      r.raw.value.data := WithStr(r.raw.value.data, s);
    }
  }

  // ---- clone and rebind ---------------------------------------------------------------------

  lemma {:induction false} ViewCondsShape(cs: seq<Cond<RawRecord>>)
    ensures |ViewConds(cs)| == |cs| && forall i :: 0 <= i < |cs| ==> ViewConds(cs)[i] == ViewCond(cs[i])
  {
    if cs != [] { ViewCondsShape(cs[1..]); }
  }

  lemma {:induction false} ViewValsShape(vs: seq<Val<RawRecord>>)
    ensures |ViewVals(vs)| == |vs| && forall i :: 0 <= i < |vs| ==> ViewVals(vs)[i] == ViewVal(vs[i]) && ValBufs(vs[i]) <= ValsBufs(vs)
  {
    if vs != [] { ViewValsShape(vs[1..]); }
  }

  lemma {:induction false} ViewRowsShape(rows: seq<seq<Val<RawRecord>>>)
    ensures |ViewRows(rows)| == |rows| && forall i :: 0 <= i < |rows| ==> ViewRows(rows)[i] == ViewVals(rows[i]) && ValsBufs(rows[i]) <= RowsBufs(rows)
  {
    if rows != [] { ViewRowsShape(rows[1..]); }
  }

  lemma {:induction false} ViewSetsShape(ss: seq<SetClause<RawRecord>>)
    ensures |ViewSets(ss)| == |ss|
    ensures forall i :: 0 <= i < |ss| ==> ViewSets(ss)[i] == SetClause(ss[i].lhs, ViewVal(ss[i].rhs))
  {
    if ss != [] { ViewSetsShape(ss[1..]); }
  }

  function FirstRebound(cs: seq<Cond<Bytes>>, n: int): seq<Cond<Bytes>> {
    if cs == [] then [] else [cs[0].(rhsVal := ReboundInt(cs[0].rhsVal, n))] + cs[1..]
  }

  function FirstHighRebound(cs: seq<Cond<Bytes>>, n: int): seq<Cond<Bytes>> {
    if cs == [] then [] else [cs[0].(rhsVal2 := ReboundInt(cs[0].rhsVal2, n))] + cs[1..]
  }

  /** Rebinds the value of the first condition. */
  method RebindFirst(cs: seq<Cond<RawRecord>>, n: int) returns (r: seq<Cond<RawRecord>>)
    requires cs != [] && CondsUnshared(cs)
    modifies ValBufs(cs[0].rhsVal)
    ensures CondsBufs(r) == CondsBufs(cs) && CondsUnshared(r) && |r| == |cs|
    ensures ViewConds(r) == FirstRebound(old(ViewConds(cs)), n)
  {
    var c := cs[0];
    ghost var rest := ViewConds(cs[1..]);
    ghost var was := ViewCond(c);
    Exist(ValsBufs(c.inValues) + CondsBufs(c.children) + CondsBufs(cs[1..]));
    var v := RebindInt(c.rhsVal, n);
    assert ViewVal(c.rhsVal2) == was.rhsVal2 && ViewVals(c.inValues) == was.inValues && ViewConds(c.children) == was.children;
    assert ViewConds(cs[1..]) == rest;
    r := [c.(rhsVal := v)] + cs[1..];
    assert r[1..] == cs[1..];
  }

  /** Rebinds the second value of the first condition. */
  method RebindFirstHigh(cs: seq<Cond<RawRecord>>, n: int) returns (r: seq<Cond<RawRecord>>)
    requires cs != [] && CondsUnshared(cs)
    modifies ValBufs(cs[0].rhsVal2)
    ensures CondsBufs(r) == CondsBufs(cs) && CondsUnshared(r) && |r| == |cs|
    ensures ViewConds(r) == FirstHighRebound(old(ViewConds(cs)), n)
  {
    var c := cs[0];
    ghost var rest := ViewConds(cs[1..]);
    ghost var was := ViewCond(c);
    Exist(ValsBufs(c.inValues) + CondsBufs(c.children) + CondsBufs(cs[1..]));
    var v := RebindInt(c.rhsVal2, n);
    assert ViewVal(c.rhsVal) == was.rhsVal && ViewVals(c.inValues) == was.inValues && ViewConds(c.children) == was.children;
    assert ViewConds(cs[1..]) == rest;
    r := [c.(rhsVal2 := v)] + cs[1..];
    assert r[1..] == cs[1..];
  }

  // ---- the statements of the fast path -------------------------------------------------------

  /** UPDATE tab SET val = v WHERE id = id; DELETE FROM tab WHERE id = id; SELECT * FROM tab WHERE id
      BETWEEN low AND high AND val + 1 > 0; INSERT INTO tab VALUES (id, v, 's'). */
  datatype Fast =
    | FastUpdate(tab: string, v: int, id: int)
    | FastDelete(tab: string, id: int)
    | FastSelect(tab: string, low: int, high: int)
    | FastInsert(tab: string, id: int, v: int, s: Bytes)

  function ReboundScan(p: Plan<Bytes>, conds: seq<Cond<Bytes>>): Plan<Bytes>
    requires p.ScanPlan?
  {
    p.(conds := conds, fedConds := conds)
  }

  /** What rebinding takes for granted: the nodes it casts to, and the entries it writes to. */
  predicate Rebinds(p: Plan<Bytes>, f: Fast) {
    p.DMLPlan? &&
    match f
    case FastUpdate(_, _, _) => p.conds != [] && |p.sets| == 1 && p.sub.ScanPlan? && p.sub.conds != []
    case FastDelete(_, _) => p.conds != [] && p.sub.ScanPlan? && p.sub.conds != []
    case FastSelect(_, _, _) => p.sub.ProjectionPlan? && p.sub.sub.ScanPlan?
    case FastInsert(_, _, _, _) =>
      |p.values| == 1 && |p.values[0]| == 3 && forall i :: 0 <= i < 3 ==> p.values[0][i].raw.None?
  }

  /** A plan with the parameters of a statement written into it. */
  function Rebound(p: Plan<Bytes>, f: Fast): Plan<Bytes>
    requires Rebinds(p, f)
  {
    match f
    case FastUpdate(_, v, id) =>
      p.(conds := FirstRebound(p.conds, id), sets := [SetClause(p.sets[0].lhs, ReboundInt(p.sets[0].rhs, v))],
         sub := ReboundScan(p.sub, FirstRebound(p.sub.conds, id)))
    case FastDelete(_, id) =>
      p.(conds := FirstRebound(p.conds, id), sub := ReboundScan(p.sub, FirstRebound(p.sub.conds, id)))
    case FastSelect(_, low, high) =>
      var scan := ReboundScan(p.sub.sub, FirstHighRebound(FirstRebound(p.sub.sub.conds, low), high));
      DMLPlan(p.tag, ProjectionPlan(p.sub.tag, scan, p.sub.selCols), p.tab, p.values, p.conds, p.sets, p.colNames, p.forUpdate)
    case FastInsert(_, id, v, s) =>
      var row := p.values[0];
      p.(values := [[ReboundInt(row[0], id), ReboundInt(row[1], v), ReboundStr(row[2], s)]])
  }

  /** A scan's first condition gets a number; what the scan is fed with becomes the same conditions. */
  method RebindScan(scan: Plan<RawRecord>, id: int) returns (r: Plan<RawRecord>)
    requires scan.ScanPlan? && Unshared(scan) && scan.conds != []
    modifies Bufs(scan)
    ensures View(r) == ReboundScan(old(View(scan)), FirstRebound(old(View(scan)).conds, id)) && Bufs(r) <= Bufs(scan)
  {
    var conds := RebindFirst(scan.conds, id);
    r := scan.(conds := conds, fedConds := conds);
  }

  /** The one value of a SET clause. */
  method RebindSet(sets: seq<SetClause<RawRecord>>, v: int) returns (r: seq<SetClause<RawRecord>>)
    requires |sets| == 1
    modifies SetsBufs(sets)
    ensures ViewSets(r) == [SetClause(sets[0].lhs, ReboundInt(old(ViewVal(sets[0].rhs)), v))] && SetsBufs(r) == SetsBufs(sets)
  {
    assert |sets[1..]| == 0;
    var value := RebindInt(sets[0].rhs, v);
    r := [SetClause(sets[0].lhs, value)];
    assert |r[1..]| == 0;
    assert ViewSets(r) == [SetClause(sets[0].lhs, ViewVal(value))] + [];
  }

  /** The conditions of the statement and of the scan below it. */
  method RebindIds(dml: Plan<RawRecord>, id: int) returns (conds: seq<Cond<RawRecord>>, scan: Plan<RawRecord>)
    requires dml.DMLPlan? && Unshared(dml) && dml.conds != [] && dml.sub.ScanPlan? && dml.sub.conds != []
    modifies CondsBufs(dml.conds), Bufs(dml.sub)
    ensures ViewConds(conds) == FirstRebound(old(ViewConds(dml.conds)), id) && CondsBufs(conds) == CondsBufs(dml.conds)
    ensures View(scan) == ReboundScan(old(View(dml.sub)), FirstRebound(old(View(dml.sub)).conds, id)) && Bufs(scan) <= Bufs(dml.sub)
  {
    Exist(Bufs(dml));
    conds := RebindFirst(dml.conds, id);
    scan := RebindScan(dml.sub, id);
  }

  /** UPDATE: the clone of a cached plan gets the parameters of this statement, all its buffers are
      its own, and the cached plan is as before. */
  method CloneRebindUpdate(tmpl: Plan<RawRecord>, f: Fast) returns (plan: Plan<RawRecord>)
    requires f.FastUpdate? && Rebinds(Cloned(View(tmpl)), f)
    ensures View(plan) == Rebound(old(Cloned(View(tmpl))), f) && fresh(Bufs(plan))
    ensures View(tmpl) == old(View(tmpl))
  {
    Exist(Bufs(tmpl));
    var dml := ClonePlan(tmpl);
    Exist(Bufs(dml));
    plan := RebindUpdate(dml, f);
  }

  /** Content and plan have the same nodes. */
  lemma SameNodes(p: Plan<RawRecord>)
    ensures View(p).ScanPlan? <==> p.ScanPlan?
    ensures View(p).DMLPlan? ==> View(p).sub == View(p.sub) && View(p).conds == ViewConds(p.conds) && |ViewConds(p.conds)| == |p.conds|
    ensures View(p).DMLPlan? ==> View(p).sets == ViewSets(p.sets) && |ViewSets(p.sets)| == |p.sets|
    ensures View(p).ScanPlan? ==> View(p).conds == ViewConds(p.conds) && |ViewConds(p.conds)| == |p.conds|
  {
    if p.DMLPlan? {
      ViewCondsShape(p.conds);
      ViewSetsShape(p.sets);
    } else if p.ScanPlan? {
      ViewCondsShape(p.conds);
    }
  }

  /** The conditions of a statement and of the scan below it. */
  function WhereRebound(p: Plan<Bytes>, id: int): Plan<Bytes>
    requires p.DMLPlan? && p.sub.ScanPlan?
  {
    p.(conds := FirstRebound(p.conds, id), sub := ReboundScan(p.sub, FirstRebound(p.sub.conds, id)))
  }

  method RebindWhere(dml: Plan<RawRecord>, id: int) returns (r: Plan<RawRecord>)
    requires Unshared(dml) && View(dml).DMLPlan? && View(dml).conds != [] && View(dml).sub.ScanPlan? && View(dml).sub.conds != []
    modifies CondsBufs(dml.conds), Bufs(dml.sub)
    ensures View(r) == WhereRebound(old(View(dml)), id) && Bufs(r) <= Bufs(dml)
    ensures r.DMLPlan? && r.sets == dml.sets && r.values == dml.values && Bufs(r.sub) <= Bufs(dml.sub) && CondsBufs(r.conds) == CondsBufs(dml.conds)
  {
    Exist(Bufs(dml));
    SameNodes(dml);
    SameNodes(dml.sub);
    var conds, scan := RebindIds(dml, id);
    r := dml.(sub := scan, conds := conds);
  }

  method RebindUpdate(dml: Plan<RawRecord>, f: Fast) returns (r: Plan<RawRecord>)
    requires f.FastUpdate? && Unshared(dml) && Rebinds(View(dml), f)
    modifies Bufs(dml)
    ensures View(r) == Rebound(old(View(dml)), f) && Bufs(r) <= Bufs(dml)
  {
    Exist(Bufs(dml));
    SameNodes(dml);
    ViewSetsShape(dml.sets);
    var d := RebindWhere(dml, f.id);
    r := RebindSets(d, f.v);
  }

  method RebindSets(dml: Plan<RawRecord>, v: int) returns (r: Plan<RawRecord>)
    requires dml.DMLPlan? && |dml.sets| == 1 && View(dml).DMLPlan?
    requires SetsBufs(dml.sets) !! Bufs(dml.sub) + CondsBufs(dml.conds) + RowsBufs(dml.values)
    modifies SetsBufs(dml.sets)
    ensures View(r) == old(View(dml)).(sets := [SetClause(dml.sets[0].lhs, ReboundInt(old(ViewVal(dml.sets[0].rhs)), v))])
    ensures Bufs(r) == Bufs(dml)
  {
    Exist(Bufs(dml));
    var sets := RebindSet(dml.sets, v);
    r := dml.(sets := sets);
  }

  method CloneRebindDelete(tmpl: Plan<RawRecord>, f: Fast) returns (plan: Plan<RawRecord>)
    requires f.FastDelete? && Rebinds(Cloned(View(tmpl)), f)
    ensures View(plan) == Rebound(old(Cloned(View(tmpl))), f) && fresh(Bufs(plan))
    ensures View(tmpl) == old(View(tmpl))
  {
    Exist(Bufs(tmpl));
    var dml := ClonePlan(tmpl);
    Exist(Bufs(dml));
    plan := RebindDelete(dml, f);
  }

  method RebindDelete(dml: Plan<RawRecord>, f: Fast) returns (r: Plan<RawRecord>)
    requires f.FastDelete? && Unshared(dml) && Rebinds(View(dml), f)
    modifies Bufs(dml)
    ensures View(r) == Rebound(old(View(dml)), f) && Bufs(r) <= Bufs(dml)
  {
    Exist(Bufs(dml));
    r := RebindWhere(dml, f.id);
  }

  method CloneRebindSelect(tmpl: Plan<RawRecord>, f: Fast) returns (plan: Plan<RawRecord>)
    requires f.FastSelect? && Rebinds(Cloned(View(tmpl)), f)
    ensures View(plan) == Rebound(old(Cloned(View(tmpl))), f) && fresh(Bufs(plan))
    ensures View(tmpl) == old(View(tmpl))
  {
    Exist(Bufs(tmpl));
    var dml := ClonePlan(tmpl);
    Exist(Bufs(dml));
    plan := RebindSelect(dml, f);
  }

  method RebindSelect(dml: Plan<RawRecord>, f: Fast) returns (r: Plan<RawRecord>)
    requires f.FastSelect? && Unshared(dml) && Rebinds(View(dml), f)
    modifies Bufs(dml)
    ensures View(r) == Rebound(old(View(dml)), f) && Bufs(r) <= Bufs(dml)
  {
    Exist(Bufs(dml));
    assert Unshared(dml.sub) && View(dml.sub).sub == View(dml.sub.sub);
    var scan := RebindRange(dml.sub.sub, f.low, f.high);
    var proj := ProjectionPlan(dml.sub.tag, scan, dml.sub.selCols);
    r := DMLPlan(dml.tag, proj, dml.tab, dml.values, dml.conds, dml.sets, dml.colNames, dml.forUpdate);
  }

  /** Both bounds of a scan's first condition; without a condition nothing is written. */
  method RebindRange(scan: Plan<RawRecord>, low: int, high: int) returns (r: Plan<RawRecord>)
    requires scan.ScanPlan? && Unshared(scan)
    modifies Bufs(scan)
    ensures View(r) == ReboundScan(old(View(scan)), FirstHighRebound(FirstRebound(old(View(scan)).conds, low), high)) && Bufs(r) <= Bufs(scan)
  {
    Exist(Bufs(scan));
    var conds := scan.conds;
    if conds != [] {
      conds := RebindFirst(scan.conds, low);
      conds := RebindFirstHigh(conds, high);
    }
    r := scan.(conds := conds, fedConds := conds);
  }

  /** INSERT: the analyzer gives the values of a row no buffers. */
  method CloneRebindInsert(tmpl: Plan<RawRecord>, f: Fast) returns (plan: Plan<RawRecord>)
    requires f.FastInsert? && Rebinds(Cloned(View(tmpl)), f)
    ensures View(plan) == Rebound(old(Cloned(View(tmpl))), f) && fresh(Bufs(plan))
    ensures View(tmpl) == old(View(tmpl))
  {
    Exist(Bufs(tmpl));
    var dml := ClonePlan(tmpl);
    Exist(Bufs(dml));
    plan := RebindInsert(dml, f);
  }

  method RebindInsert(dml: Plan<RawRecord>, f: Fast) returns (r: Plan<RawRecord>)
    requires f.FastInsert? && Rebinds(View(dml), f)
    ensures View(r) == Rebound(old(View(dml)), f) && Bufs(r) <= Bufs(dml)
  {
    RowShape(dml.values);
    Exist(Bufs(dml));
    var row := RebindRow(dml.values[0], f);
    r := dml.(values := [row]);
    RowIs(row[0], row[1], row[2]);
    assert row == [row[0], row[1], row[2]];
  }

  method RebindRow(row: seq<Val<RawRecord>>, f: Fast) returns (r: seq<Val<RawRecord>>)
    requires f.FastInsert? && |row| == 3 && forall i :: 0 <= i < 3 ==> row[i].raw.None?
    ensures |r| == 3 && forall i :: 0 <= i < 3 ==> r[i].raw.None?
    ensures ViewVal(r[0]) == ReboundInt(ViewVal(row[0]), f.id) && ViewVal(r[1]) == ReboundInt(ViewVal(row[1]), f.v)
    ensures ViewVal(r[2]) == ReboundStr(ViewVal(row[2]), f.s)
  {
    Exist(ValBufs(row[0]) + ValBufs(row[1]) + ValBufs(row[2]));
    var a := RebindInt(row[0], f.id);
    var b := RebindInt(row[1], f.v);
    var c := RebindStr(row[2], f.s);
    r := [a, b, c];
  }

  lemma RowShape(values: seq<seq<Val<RawRecord>>>)
    requires |ViewRows(values)| == 1 && |ViewRows(values)[0]| == 3
    ensures |values| == 1 && |values[0]| == 3
    ensures forall i :: 0 <= i < 3 ==> ViewRows(values)[0][i] == ViewVal(values[0][i])
    ensures forall i :: 0 <= i < 3 ==> (ViewRows(values)[0][i].raw.None? <==> values[0][i].raw.None?)
  {
    ViewRowsShape(values);
    ViewValsShape(values[0]);
  }

  lemma RowIs(a: Val<RawRecord>, b: Val<RawRecord>, c: Val<RawRecord>)
    requires a.raw.None? && b.raw.None? && c.raw.None?
    ensures ViewRows([[a, b, c]]) == [[ViewVal(a), ViewVal(b), ViewVal(c)]]
    ensures RowsBufs([[a, b, c]]) == {}
  {
    var row: seq<Val<RawRecord>> := [a, b, c];
    var rows: seq<seq<Val<RawRecord>>> := [row];
    ViewRowsShape(rows);
    ViewValsShape(row);
    assert row[1..] == [b, c] && [b, c][1..] == [c] && |[c][1..]| == 0 && |rows[1..]| == 0;
    assert ViewVals(row) == [ViewVal(a), ViewVal(b), ViewVal(c)];
    assert ViewRows(rows) == [ViewVals(row)];
    assert rows == [[a, b, c]];
    assert ValsBufs([c]) == {} && ValsBufs([b, c]) == {} && ValsBufs(row) == {};
  }
}
