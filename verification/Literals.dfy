/** Numbers written in a query and the columns they are compared with. A FLOAT literal loses its
    fraction before it is compared with an INT column, in WHERE and in HAVING. */
module Literals {
  import opened AggregateSpec
  import opened ConditionMeaning
  import opened Conditions
  import opened SeqScan
  import CharColumns
  import CondTree
  import KeyOrder
  import PlanCache
  import StatementPlan

  /** The literal's fraction lies beyond the value, seen from zero, and the operator is one that
      notices. */
  predicate Misread(op: CompOp, n: int, r: real) {
    || (0 <= n && n as real < r < (n + 1) as real && (op.OpEq? || op.OpNe? || op.OpLt? || op.OpGe?))
    || (n <= 0 && (n - 1) as real < r < n as real && (op.OpEq? || op.OpNe? || op.OpGt? || op.OpLe?))
  }

  /** Dropping the fraction keeps the sign and less than one is lost. */
  lemma TruncateBetween(r: real)
    ensures 0.0 <= r ==> 0 <= Truncate(r) && Truncate(r) as real <= r < (Truncate(r) + 1) as real
    ensures r <= 0.0 ==> Truncate(r) <= 0 && (Truncate(r) - 1) as real < r <= Truncate(r) as real
  {
  }

  /** Comparing with the literal's whole part is comparing with the literal, unless it is misread. */
  lemma CutIff(op: CompOp, n: int, r: real)
    requires IsComparison(op)
    ensures (Says(op, IntV(n), IntV(Truncate(r))) <==> Says(op, FloatV(n as real), FloatV(r))) <==> !Misread(op, n, r)
  {
    TruncateBetween(r);
  }

  // ---- WHERE ------------------------------------------------------------------------

  /** The row has the column, with a value of its type. */
  ghost predicate HasTyped(db: StatementPlan.Catalog, row: Row, c: Col) {
    db.MetaOf(c).Some? ==> c in row && row[c].Type() == db.MetaOf(c).value.typ
  }

  /** A comparison of a column with a literal, after the analyzer's check: it is about the column of
      the table, of the column's type, and says of the row what it said before, but for an INT column
      and a FLOAT literal exactly if that is not misread. */
  lemma CheckedIff(db: StatementPlan.Catalog, tab: string, c: Condition, c': Condition, row: Row)
    requires IsComparison(c.op) && c.isRhsVal && c.lhs != CondTree.NO_COL
    requires StatementPlan.CheckOne(db, tab, c) == Some(c')
    requires HasTyped(db, row, c'.lhs)
    ensures c'.lhs == (if c.lhs.tab == "" then Col(tab, c.lhs.name) else c.lhs)
    ensures Typed(c', row)
    ensures var v, w := row[c'.lhs], c.rhsVal;
            && (v.Type() == w.Type() ==> (EvalCond(c', row) <==> Says(c.op, v, w)))
            && (v.FloatV? && w.IntV? ==> (EvalCond(c', row) <==> Says(c.op, v, FloatV(w.i as real))))
            && (v.IntV? && w.FloatV? ==> ((EvalCond(c', row) <==> Says(c.op, FloatV(v.i as real), w)) <==> !Misread(c.op, v.i, w.r)))
            && (v.StrV? <==> w.StrV?)
  {
    ScanDecides(c', row);
    if row[c'.lhs].IntV? && c.rhsVal.FloatV? { CutIff(c.op, row[c'.lhs].i, c.rhsVal.r); }
  }

  /** WHERE t.n < 2.5 rejects the row in which n is 2. */
  lemma WhereMisread(db: StatementPlan.Catalog)
    requires db.MetaOf(Col("t", "n")) == Some(PlanCache.ColMeta("n", TypeInt, 4))
    ensures var c := CondTree.Leaf(Col("t", "n"), OpLt, true, CondTree.NO_COL, FloatV(2.5), CondTree.NO_VALUE, [], false);
            var r := StatementPlan.CheckOne(db, "t", c);
            r.Some? && !EvalCond(r.value, map[Col("t", "n") := IntV(2)])
  {
    var c := CondTree.Leaf(Col("t", "n"), OpLt, true, CondTree.NO_COL, FloatV(2.5), CondTree.NO_VALUE, [], false);
    CheckedIff(db, "t", c, StatementPlan.CheckOne(db, "t", c).value, map[Col("t", "n") := IntV(2)]);
  }

  /** A whole number beside a FLOAT column is that number. */
  function Beside(v: Value, w: Value): Value {
    if v.FloatV? && w.IntV? then FloatV(w.i as real) else w
  }

  /** BETWEEN after the check: the first bound has the column's type. The second one's type is not
      looked at; exactly if it fits too, the condition is about values of one type, and then it says
      what it said. */
  lemma CheckedRange(db: StatementPlan.Catalog, tab: string, c: Condition, c': Condition, row: Row)
    requires (c.op.OpBetween? || c.op.OpNotBetween?) && c.isRhsVal && c.lhs != CondTree.NO_COL
    requires StatementPlan.CheckOne(db, tab, c) == Some(c') && HasTyped(db, row, c'.lhs)
    ensures c'.lhs in row
    ensures var v := row[c'.lhs];
            var low, high := Beside(v, c.rhsVal), Beside(v, c.rhsVal2);
            && low.Type() == v.Type()
            && (Typed(c', row) <==> high.Type() == v.Type())
            && (Typed(c', row) ==> (EvalCond(c', row) <==> (Within(v, low, high) <==> c.op.OpBetween?)))
  {
    if Typed(c', row) { ScanDecides(c', row); }
  }

  /** IN after the check: every value has the column's type, and the row passes if its own is one of
      them. */
  lemma CheckedList(db: StatementPlan.Catalog, tab: string, c: Condition, c': Condition, row: Row)
    requires (c.op.OpIn? || c.op.OpNotIn?) && c.lhs != CondTree.NO_COL
    requires StatementPlan.CheckOne(db, tab, c) == Some(c') && HasTyped(db, row, c'.lhs)
    ensures Typed(c', row)
    ensures EvalCond(c', row) <==>
            ((exists i :: 0 <= i < |c.inValues| && row[c'.lhs] == Beside(row[c'.lhs], c.inValues[i])) <==> c.op.OpIn?)
  {
    ListTyped(db, tab, c, c', row);
    ScanDecides(c', row);
    var v := row[c'.lhs];
    assert v in c'.inValues <==> exists i :: 0 <= i < |c.inValues| && v == Beside(v, c.inValues[i]);
  }

  lemma ListTyped(db: StatementPlan.Catalog, tab: string, c: Condition, c': Condition, row: Row)
    requires (c.op.OpIn? || c.op.OpNotIn?) && c.lhs != CondTree.NO_COL
    requires StatementPlan.CheckOne(db, tab, c) == Some(c') && HasTyped(db, row, c'.lhs)
    ensures Typed(c', row) && c'.op == c.op && |c'.inValues| == |c.inValues|
    ensures forall i :: 0 <= i < |c.inValues| ==> c'.inValues[i] == Beside(row[c'.lhs], c.inValues[i])
  {
    var full := c.(lhs := c'.lhs);
    assert StatementPlan.CheckTyped(db, full) == Some(c');
    ValuesTyped(db, full, c', db.MetaOf(c'.lhs).value);
  }

  lemma ValuesTyped(db: StatementPlan.Catalog, c: Condition, c': Condition, m: PlanCache.ColMeta)
    requires (c.op.OpIn? || c.op.OpNotIn?) && db.MetaOf(c.lhs) == Some(m) && StatementPlan.CheckTyped(db, c) == Some(c')
    ensures c'.lhs == c.lhs && c'.op == c.op && |c'.inValues| == |c.inValues|
    ensures forall i :: 0 <= i < |c.inValues| ==>
                          c'.inValues[i] == StatementPlan.Promoted(c.inValues[i], m.typ, false) && c'.inValues[i].Type() == m.typ
  {
  }

  /** A literal that a column takes; a comparison may also cut a FLOAT for an INT column. */
  predicate Takes(m: PlanCache.ColMeta, w: Value, cut: bool) {
    match m.typ
    case TypeInt => w.IntV? || (cut && w.FloatV?)
    case TypeFloat => w.IntV? || w.FloatV?
    case TypeString => w.StrV? && |w.s| <= m.len
  }

  /** The check refuses a condition on a column of the table exactly for these reasons: there is no such
      column; a literal is not for it, or a string too long; LIKE on a column of numbers; a comparison
      of columns of two types. */
  lemma AcceptedIff(db: StatementPlan.Catalog, tab: string, c: Condition)
    requires db.Valid() && tab in db.tables && c.lhs.name != "" && c.lhs.tab == ""
    requires IsComparison(c.op) && !c.isRhsVal ==> c.rhs.name != "" && c.rhs.tab == ""
    requires c.op.OpLike? || c.op.OpNotLike? || c.op.OpBetween? || c.op.OpNotBetween? ==> c.isRhsVal
    requires !c.op.OpOr? && !c.op.OpNot?
    ensures var col := db.MetaOf(Col(tab, c.lhs.name));
            StatementPlan.CheckOne(db, tab, c).Some? <==>
            col.Some? && match c.op
                         case OpIsNull => true
                         case OpIsNotNull => true
                         case OpLike => col.value.typ.TypeString?
                         case OpNotLike => col.value.typ.TypeString?
                         case OpBetween => Takes(col.value, c.rhsVal, false) && StatementPlan.FitsBuffer(c.rhsVal2, col.value.len)
                         case OpNotBetween => Takes(col.value, c.rhsVal, false) && StatementPlan.FitsBuffer(c.rhsVal2, col.value.len)
                         case OpIn => forall i :: 0 <= i < |c.inValues| ==> Takes(col.value, c.inValues[i], false)
                         case OpNotIn => forall i :: 0 <= i < |c.inValues| ==> Takes(col.value, c.inValues[i], false)
                         case _ => if c.isRhsVal then Takes(col.value, c.rhsVal, true)
                                   else db.MetaOf(Col(tab, c.rhs.name)).Some? && db.MetaOf(Col(tab, c.rhs.name)).value.typ == col.value.typ
  {
    var col := db.MetaOf(Col(tab, c.lhs.name));
    if col.Some? {
      var i :| 0 <= i < |db.tables[tab].cols| && db.tables[tab].cols[i] == col.value;
      assert col.value.typ.TypeString? || col.value.len == 4;
      if c.op.OpIn? || c.op.OpNotIn? { ListAccepted(db, c.(lhs := Col(tab, c.lhs.name)), col.value); }
    }
  }

  lemma ListAccepted(db: StatementPlan.Catalog, c: Condition, m: PlanCache.ColMeta)
    requires (c.op.OpIn? || c.op.OpNotIn?) && db.MetaOf(c.lhs) == Some(m) && (m.typ.TypeString? || m.len == 4)
    ensures StatementPlan.CheckTyped(db, c).Some? <==> forall i :: 0 <= i < |c.inValues| ==> Takes(m, c.inValues[i], false)
  {
    var ws := c.inValues;
    var vs := seq(|ws|, i requires 0 <= i < |ws| => StatementPlan.Promoted(ws[i], m.typ, false));
    forall i | 0 <= i < |ws| ensures vs[i].Type() == m.typ && StatementPlan.FitsBuffer(vs[i], m.len) <==> Takes(m, ws[i], false) {
      assert vs[i] == StatementPlan.Promoted(ws[i], m.typ, false);
    }
    if StatementPlan.CheckTyped(db, c).Some? {
      var us := StatementPlan.CheckTyped(db, c).value.inValues;
      forall i | 0 <= i < |ws| ensures Takes(m, ws[i], false) { assert us[i] == vs[i]; }
    }
  }

  // ---- HAVING -----------------------------------------------------------------------

  /** The condition is a comparison of output column `n`, found by its name, with a literal. */
  predicate Compares(cond: Condition, names: seq<string>, row: seq<Value>, n: nat) {
    && IsComparison(cond.op) && cond.isRhsVal && n < |names| && n < |row| && names[n] == cond.lhs.name
    && forall i :: 0 <= i < n ==> names[i] != names[n]
  }

  /** HAVING compares a COUNT, which is an INT, with a whole number, and the other aggregates with any
      number, as numbers; a COUNT with a FLOAT literal exactly if that is not misread. */
  lemma HavingIff(cond: Condition, names: seq<string>, row: seq<Value>, n: nat)
    requires Compares(cond, names, row, n)
    ensures var v, w := row[n], cond.rhsVal;
            && (v.Type() == w.Type() ==> (EvalHaving(cond, names, row) <==> Says(cond.op, v, w)))
            && (v.FloatV? && w.IntV? ==> (EvalHaving(cond, names, row) <==> Says(cond.op, v, FloatV(w.i as real))))
            && (v.IntV? && w.FloatV? ==>
                  ((EvalHaving(cond, names, row) <==> Says(cond.op, FloatV(v.i as real), w)) <==> !Misread(cond.op, v.i, w.r)))
  {
    var v, w := row[n], cond.rhsVal;
    assert Find(names, cond.lhs.name) == n;
    if v.Type() == w.Type() {
      CompareSays(cond.op, v, w);
    } else if v.IntV? && w.FloatV? {
      CompareSays(cond.op, v, IntV(Truncate(w.r)));
      CutIff(cond.op, v.i, w.r);
    } else if v.FloatV? && w.IntV? {
      CompareSays(cond.op, v, FloatV(w.i as real));
    }
  }

  /** Conditions on a name the output does not have, or with a column on the right, let the row pass. */
  lemma HavingIgnores(cond: Condition, names: seq<string>, row: seq<Value>)
    requires cond.lhs.name !in names || (IsComparison(cond.op) && !cond.isRhsVal)
    ensures EvalHaving(cond, names, row)
  {
    var n := Find(names, cond.lhs.name);
    if n < |names| { assert names[n] in names; }
  }

  // ---- the bytes of a literal -----------------------------------------------------------

  /** The buffer of a checked value reads back as the value: numbers by their bytes, strings up to the
      first zero. */
  lemma FilledReads(db: StatementPlan.Catalog, v: Value, len: nat)
    requires v.IntV? ==> -0x8000_0000 <= v.i < 0x8000_0000
    requires v.StrV? ==> CharColumns.CharOk(v.s, len)
    ensures var f := StatementPlan.Filled(db, v, len);
            && f.raw.Some?
            && (v.IntV? ==> f.datum == PlanCache.I(v.i) && KeyOrder.BytesOk(f.raw.value) && |f.raw.value| == 4
                            && KeyOrder.IntValue(f.raw.value) == v.i)
            && (v.StrV? ==> f.datum == PlanCache.S(v.s) && |f.raw.value| == len && CharColumns.UpToZero(f.raw.value) == v.s)
  {
    if v.IntV? { KeyOrder.BytesRead(v.i); }
    if v.StrV? {
      CharColumns.KeyIsValue(v.s, len);
      assert StatementPlan.Filled(db, v, len).raw.value == CharColumns.Padded(v.s, len);
    }
  }

  /** Rebinding overwrites a buffer so that it reads back as the new number or string, and leaves its
      length and, behind a number, its other bytes as they were. */
  lemma ReboundReads(data: PlanCache.Bytes, n: int, str: PlanCache.Bytes)
    requires -0x8000_0000 <= n < 0x8000_0000 && CharColumns.CharOk(str, |data|)
    ensures 4 <= |data| ==>
              var r := PlanCache.WithInt(data, n);
              |r| == |data| && r[4..] == data[4..] && KeyOrder.BytesOk(r[..4]) && KeyOrder.IntValue(r[..4]) == n
    ensures var r := PlanCache.WithStr(data, str);
            |r| == |data| && CharColumns.UpToZero(r) == str
  {
    KeyOrder.BytesRead(n);
    assert PlanCache.WithInt(data, n)[..4] == IntBytes(n);
    CharColumns.KeyIsValue(str, |data|);
    assert PlanCache.WithStr(data, str) == CharColumns.Padded(str, |data|);
  }
}
