/** CHAR columns in a join. The evaluators compare as many bytes as the column named first has; the
    hash key takes each side's own bytes up to the first zero. */
module CharColumns {
  import opened Conditions
  import opened HashProbe
  import opened JoinSpec

  type Bytes = seq<int>

  /** A value of a CHAR(n) column: at most n bytes, none of them zero. */
  predicate CharOk(s: Bytes, n: nat) {
    |s| <= n && forall i :: 0 <= i < |s| ==> 0 < s[i] < 256
  }

  /** The column's bytes in a record: the value, and zeros up to the column's length. */
  function Padded(s: Bytes, n: nat): (p: Bytes)
    requires |s| <= n
    ensures |p| == n
  {
    s + seq(n - |s|, _ => 0)
  }

  /** Bytes up to the first zero. */
  function UpToZero(p: Bytes): (s: Bytes)
    ensures |s| <= |p| && s == p[..|s|] && (forall i :: 0 <= i < |s| ==> p[i] != 0) && (|s| < |p| ==> p[|s|] == 0)
  {
    if p == [] || p[0] == 0 then [] else [p[0]] + UpToZero(p[1..])
  }

  /** The key part of a column is its value. */
  lemma {:induction false} KeyIsValue(s: Bytes, n: nat)
    requires CharOk(s, n)
    ensures UpToZero(Padded(s, n)) == s
  {
    if s != [] {
      assert Padded(s, n)[1..] == Padded(s[1..], n - 1);
      KeyIsValue(s[1..], n - 1);
    }
  }

  /** What lies behind a column: the next column's bytes, or the memory after the record. */
  type Behind = nat -> int

  /** The `n` bytes that start at a column of length `len`. */
  function Memory(s: Bytes, len: nat, n: nat, behind: Behind): (p: Bytes)
    ensures |p| == n
  {
    seq(n, i requires 0 <= i < n => if i < |s| then s[i] else if i < len then 0 else behind(i - len))
  }

  /** Columns of lengths `la` and `lb`, the first named first. */
  function CompareChars(a: Bytes, la: nat, b: Bytes, lb: nat, behind: Behind): int {
    CompareBytes(Memory(a, la, la, behind), Memory(b, lb, la, behind))
  }

  predicate SameBytes(a: Bytes, la: nat, b: Bytes, lb: nat, behind: Behind) {
    CompareChars(a, la, b, lb, behind) == 0
  }

  /** Padding does not change the order. */
  lemma {:induction false} PaddedOrder(a: Bytes, b: Bytes, n: nat)
    requires CharOk(a, n) && CharOk(b, n)
    ensures CompareBytes(Padded(a, n), Padded(b, n)) == CompareBytes(a, b)
  {
    if n > 0 {
      var p, q := Padded(a, n), Padded(b, n);
      if a != [] && b != [] {
        assert p[1..] == Padded(a[1..], n - 1) && q[1..] == Padded(b[1..], n - 1);
        PaddedOrder(a[1..], b[1..], n - 1);
      } else if a == [] && b == [] {
        CompareBytesOrder(p, q, p);
      }
    }
  }

  lemma MemoryIsPadded(s: Bytes, n: nat, behind: Behind)
    requires |s| <= n
    ensures Memory(s, n, n, behind) == Padded(s, n)
  {
  }

  /** For columns of one length the bytes compare as the values do. */
  lemma EqualLengthsCompare(a: Bytes, b: Bytes, n: nat, behind: Behind)
    requires CharOk(a, n) && CharOk(b, n)
    ensures CompareChars(a, n, b, n, behind) == CompareBytes(a, b)
  {
    MemoryIsPadded(a, n, behind);
    MemoryIsPadded(b, n, behind);
    PaddedOrder(a, b, n);
  }

  function Ones(n: nat): Bytes {
    seq(n, _ => 1)
  }

  /** Equal bytes are equal values, whatever lies behind, if and only if the columns have the same
      length. */
  lemma SameLengthIff(la: nat, lb: nat)
    ensures (forall a, b, behind :: CharOk(a, la) && CharOk(b, lb) ==> (SameBytes(a, la, b, lb, behind) <==> a == b)) <==> la == lb
  {
    if la == lb {
      forall a, b, behind | CharOk(a, la) && CharOk(b, lb) ensures SameBytes(a, la, b, lb, behind) <==> a == b {
        EqualLengthsCompare(a, b, la, behind);
        CompareBytesOrder(a, b, a);
      }
    } else {
      var a, b, behind := OtherLengths(la, lb);
    }
  }

  /** For columns of different lengths some equal bytes are different values. */
  lemma OtherLengths(la: nat, lb: nat) returns (a: Bytes, b: Bytes, behind: Behind)
    requires la != lb
    ensures CharOk(a, la) && CharOk(b, lb) && SameBytes(a, la, b, lb, behind) && a != b
  {
    a, b, behind := Ones(la), Ones(lb), (i: nat) => 1;
    assert Memory(a, la, la, behind) == Memory(b, lb, la, behind);
    CompareBytesOrder(Memory(a, la, la, behind), Memory(b, lb, la, behind), a);
  }

  // ---- the two joins ---------------------------------------------------------------------

  const A: Col := Col("t", "a")
  const B: Col := Col("u", "b")

  function ValueOf(row: Row, col: Col): Bytes {
    if col in row && row[col].StrV? then row[col].s else []
  }

  /** The join of t and u on t.a = u.b as the evaluator decides it. */
  function CharJoin(la: nat, lb: nat, behind: Behind): Join {
    Join((l: Row, r: Row) => SameBytes(ValueOf(l, A), la, ValueOf(r, B), lb, behind),
         Inner, map[])
  }

  /** Its hash join: the key is the value and a closing zero. */
  function CharHashing(la: nat, lb: nat, behind: Behind): Hashing {
    Hashing(CharJoin(la, lb, behind), (row: Row) => ValueOf(row, A) + [0], (row: Row) => ValueOf(row, B) + [0])
  }

  ghost predicate CharRows(rows: seq<Row>, col: Col, n: nat) {
    forall i :: 0 <= i < |rows| ==> CharOk(ValueOf(rows[i], col), n)
  }

  /** The hash join and the nested-loop join yield the same bag, on all rows, whatever lies behind
      the second column. */
  ghost predicate Agree(la: nat, lb: nat) {
    forall left: seq<Row>, right: seq<Row>, behind: Behind, t: Table ::
      CharRows(left, A, la) && CharRows(right, B, lb) && CharHashing(la, lb, behind).TableOk(left, t) ==>
        multiset(HashRows(la, lb, left, right, behind, t)) == multiset(CharJoin(la, lb, behind).Rows(left, right))
  }

  function HashRows(la: nat, lb: nat, left: seq<Row>, right: seq<Row>, behind: Behind, t: Table): seq<Row> {
    CharHashing(la, lb, behind).RestDue(left, t, right, seq(|left|, _ => false))
  }

  lemma EqualLengthsFit(n: nat, left: seq<Row>, right: seq<Row>, behind: Behind)
    requires CharRows(left, A, n) && CharRows(right, B, n)
    ensures CharHashing(n, n, behind).KeysFit(left, right)
  {
    var h := CharHashing(n, n, behind);
    forall i, j | 0 <= i < |left| && 0 <= j < |right| && h.join.matches(left[i], right[j])
      ensures h.leftKey(left[i]) == h.rightKey(right[j])
    {
      EqualLengthsCompare(ValueOf(left[i], A), ValueOf(right[j], B), n, behind);
      CompareBytesOrder(ValueOf(left[i], A), ValueOf(right[j], B), []);
    }
  }

  /** One pair of rows with equal bytes and different values: the nested loop yields it, the hash
      join looks in the wrong bucket. */
  lemma OnePairApart(la: nat, lb: nat, a: Bytes, b: Bytes, behind: Behind)
    requires CharOk(a, la) && CharOk(b, lb) && SameBytes(a, la, b, lb, behind) && a != b
    ensures var left, right, t := [map[A := StrV(a)]], [map[B := StrV(b)]], map[a + [0] := [0]];
            && CharRows(left, A, la) && CharRows(right, B, lb) && CharHashing(la, lb, behind).TableOk(left, t)
            && HashRows(la, lb, left, right, behind, t) == [] && |CharJoin(la, lb, behind).Rows(left, right)| == 1
  {
    var l: Row, r: Row := map[A := StrV(a)], map[B := StrV(b)];
    var left, right, t: Table := [l], [r], map[a + [0] := [0]];
    var h, j := CharHashing(la, lb, behind), CharJoin(la, lb, behind);
    assert ValueOf(l, A) == a && ValueOf(r, B) == b && j.matches(l, r);
    assert (a + [0])[..|a|] == a && (b + [0])[..|b|] == b && (a + [0])[|a|] == 0;
    assert a + [0] != b + [0];
    assert right[1..] == [] && left[1..] == [];
    assert Bucket(t, h.rightKey(r)) == [];
    assert h.Probe(left, t, right) == [] + h.Probe(left, t, []);
    assert j.Partners(l, right) == [l + r] + j.Partners(l, []);
    assert j.Rows(left, right) == j.Partners(l, right) + j.Rows([], right);
  }

  /** The algorithms agree on an equality of CHAR columns if and only if the columns have the same
      length. */
  lemma AgreeIff(la: nat, lb: nat)
    ensures Agree(la, lb) <==> la == lb
  {
    if la == lb {
      forall left: seq<Row>, right: seq<Row>, behind: Behind, t: Table |
        CharRows(left, A, la) && CharRows(right, B, lb) && CharHashing(la, lb, behind).TableOk(left, t)
        ensures multiset(HashRows(la, lb, left, right, behind, t)) == multiset(CharJoin(la, lb, behind).Rows(left, right))
      {
        EqualLengthsFit(la, left, right, behind);
        CharHashing(la, lb, behind).HashJoinIsJoin(left, t, right);
      }
    } else {
      var a, b, behind := OtherLengths(la, lb);
      OnePairApart(la, lb, a, b, behind);
      assert !Agree(la, lb);
    }
  }

  /** CHAR(2) 'ab' joined with CHAR(4) 'abcd': the nested loop yields the pair, the hash join does not. */
  lemma ShorterColumnDiffers(behind: Behind)
    ensures var ab, abcd := [97, 98], [97, 98, 99, 100];
            var left, right, t := [map[A := StrV(ab)]], [map[B := StrV(abcd)]], map[ab + [0] := [0]];
            && CharHashing(2, 4, behind).TableOk(left, t)
            && HashRows(2, 4, left, right, behind, t) == [] && |CharJoin(2, 4, behind).Rows(left, right)| == 1
  {
    var ab, abcd := [97, 98], [97, 98, 99, 100];
    assert Memory(ab, 2, 2, behind) == ab == Memory(abcd, 4, 2, behind);
    CompareBytesOrder(ab, ab, ab);
    OnePairApart(2, 4, ab, abcd, behind);
  }

  // ---- join conditions on columns of given lengths ---------------------------------------------

  /** The lengths of the CHAR columns, and what lies behind each column of each record. */
  datatype Chars = Chars(lens: map<Col, nat>, behind: (Row, Col) -> Behind) {

    function Len(c: Col): nat {
      if c in lens then lens[c] else 0
    }

    predicate ValueOk(c: Col, v: Value) {
      v.StrV? ==> CharOk(v.s, Len(c))
    }

    predicate RowOk(row: Row) {
      forall c :: c in row ==> ValueOk(c, row[c])
    }

    /** Compared columns have one length. */
    predicate Fits(cond: Condition)
      decreases cond
    {
      if cond.op.OpOr? || cond.op.OpNot? then forall i :: 0 <= i < |cond.children| ==> Fits(cond.children[i])
      else IsComparison(cond.op) && !cond.isRhsVal ==> Len(cond.lhs) == Len(cond.rhs)
    }

    /** Two columns compared as the evaluators do it. */
    function CompareColumns(lhs: Col, rhs: Col, l: Row, r: Row): int
      requires lhs in l.Keys + r.Keys && rhs in l.Keys + r.Keys && Field(l, r, lhs).Type() == Field(l, r, rhs).Type()
    {
      var a, b := Field(l, r, lhs), Field(l, r, rhs);
      if a.StrV? then CompareChars(a.s, Len(lhs), b.s, Len(rhs), behind(if rhs in l then l else r, rhs)) else Compare(a, b)
    }

    predicate EvalBytes(cond: Condition, l: Row, r: Row)
      requires JoinCond(cond, l.Keys + r.Keys)
      decreases cond
    {
      if cond.op.OpOr? then
        cond.children == [] || exists i :: 0 <= i < |cond.children| && EvalBytes(cond.children[i], l, r)
      else if cond.op.OpNot? then
        forall i :: 0 <= i < |cond.children| ==> !EvalBytes(cond.children[i], l, r)
      else
        var a := Field(l, r, cond.lhs);
        if cond.op.OpIsNull? then IsNull(a)
        else if cond.op.OpIsNotNull? then !IsNull(a)
        else a.Type() == Field(l, r, cond.rhs).Type() && Holds(cond.op, CompareColumns(cond.lhs, cond.rhs, l, r))
    }

    predicate AllBytes(conds: seq<Condition>, l: Row, r: Row) {
      forall i :: 0 <= i < |conds| ==> JoinCond(conds[i], l.Keys + r.Keys) && EvalBytes(conds[i], l, r)
    }

    /** The join as the executors decide it. */
    function ByteJoin(conds: seq<Condition>, jt: JoinType, pad: Row): Join {
      Join((l: Row, r: Row) => AllBytes(conds, l, r), jt, pad)
    }

    /** Where compared columns have one length, comparing bytes is comparing values. */
    lemma {:induction false} EvalIsWhole(cond: Condition, l: Row, r: Row)
      requires JoinCond(cond, l.Keys + r.Keys) && Fits(cond) && RowOk(l) && RowOk(r)
      ensures EvalBytes(cond, l, r) <==> EvalPair(cond, l, r)
      decreases cond
    {
      if cond.op.OpOr? || cond.op.OpNot? {
        forall i | 0 <= i < |cond.children| ensures EvalBytes(cond.children[i], l, r) <==> EvalPair(cond.children[i], l, r) {
          EvalIsWhole(cond.children[i], l, r);
        }
      } else if IsComparison(cond.op) {
        var a, b := Field(l, r, cond.lhs), Field(l, r, cond.rhs);
        if a.StrV? && b.StrV? {
          EqualLengthsCompare(a.s, b.s, Len(cond.lhs), behind(if cond.rhs in l then l else r, cond.rhs));
        }
      }
    }

    lemma AllIsWhole(conds: seq<Condition>, l: Row, r: Row)
      requires (forall c :: c in conds ==> Fits(c)) && RowOk(l) && RowOk(r)
      ensures AllBytes(conds, l, r) <==> AllHold(conds, l, r)
    {
      forall i | 0 <= i < |conds| && JoinCond(conds[i], l.Keys + r.Keys)
        ensures EvalBytes(conds[i], l, r) <==> EvalPair(conds[i], l, r)
      {
        assert conds[i] in conds;
        EvalIsWhole(conds[i], l, r);
      }
    }
  }
}
