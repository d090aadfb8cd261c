/** Laws of inner joins that the planner's rewrites rest on. */
module JoinAlgebra {
  import opened Conditions
  import opened JoinBags
  import opened JoinSpec
  import opened SeqScan

  /** All pairs of rows, each glued to one row. */
  function Pair(l: Row, right: seq<Row>): seq<Row> {
    if right == [] then [] else [l + right[0]] + Pair(l, right[1..])
  }

  function Cross(left: seq<Row>, right: seq<Row>): seq<Row> {
    if left == [] then [] else Pair(left[0], right) + Cross(left[1..], right)
  }

  /** Two joins that admit the same pairs of these rows. */
  ghost predicate SamePairs(a: Join, b: Join, left: seq<Row>, right: seq<Row>) {
    forall l, r :: l in left && r in right ==> (a.matches(l, r) <==> b.matches(l, r))
  }

  lemma {:induction false} PartnersCongruence(a: Join, b: Join, l: Row, right: seq<Row>)
    requires forall r :: r in right ==> (a.matches(l, r) <==> b.matches(l, r))
    ensures a.Partners(l, right) == b.Partners(l, right)
    decreases |right|
  {
    if right != [] {
      assert right[0] in right;
      assert forall r :: r in right[1..] ==> r in right;
      PartnersCongruence(a, b, l, right[1..]);
    }
  }

  lemma {:induction false} RowsCongruence(a: Join, b: Join, left: seq<Row>, right: seq<Row>)
    requires a.jt == b.jt && a.pad == b.pad && SamePairs(a, b, left, right)
    ensures a.Rows(left, right) == b.Rows(left, right)
    decreases |left|
  {
    if left != [] {
      assert left[0] in left;
      assert forall l :: l in left[1..] ==> l in left;
      PartnersCongruence(a, b, left[0], right);
      RowsCongruence(a, b, left[1..], right);
    }
  }

  lemma {:induction false} ScanConcat(conds: seq<Condition>, a: seq<Row>, b: seq<Row>)
    ensures Scan(conds, a + b) == Scan(conds, a) + Scan(conds, b)
    decreases |a|
  {
    if a == [] {
      assert a + b == b;
    } else {
      ScanConcat(conds, a[1..], b);
      assert (a + b)[1..] == a[1..] + b && (a + b)[0] == a[0];
      Assoc(if CheckAllConds(conds, a[0]) then [a[0]] else [], Scan(conds, a[1..]), Scan(conds, b));
    }
  }

  lemma {:induction false} ScanPair(conds: seq<Condition>, j: Join, l: Row, right: seq<Row>)
    requires forall r :: r in right ==> (j.matches(l, r) <==> CheckAllConds(conds, l + r))
    ensures Scan(conds, Pair(l, right)) == j.Partners(l, right)
    decreases |right|
  {
    if right != [] {
      assert right[0] in right;
      assert forall r :: r in right[1..] ==> r in right;
      ScanPair(conds, j, l, right[1..]);
      assert Pair(l, right)[1..] == Pair(l, right[1..]);
    }
  }

  /** A join is the cross product filtered by the condition on the glued row. */
  lemma {:induction false} JoinIsFilteredCross(conds: seq<Condition>, j: Join, left: seq<Row>, right: seq<Row>)
    requires j.jt.Inner?
    requires forall l, r :: l in left && r in right ==> (j.matches(l, r) <==> CheckAllConds(conds, l + r))
    ensures j.Rows(left, right) == Scan(conds, Cross(left, right))
    decreases |left|
  {
    if left != [] {
      assert left[0] in left;
      assert forall l :: l in left[1..] ==> l in left;
      ScanPair(conds, j, left[0], right);
      JoinIsFilteredCross(conds, j, left[1..], right);
      ScanConcat(conds, Pair(left[0], right), Cross(left[1..], right));
    }
  }

  // ---- pushing filters below a join ---------------------------------------------

  lemma {:induction false} PartnersOfScan(j: Join, k: Join, c: seq<Condition>, l: Row, right: seq<Row>)
    requires forall r :: r in right ==> (k.matches(l, r) <==> CheckAllConds(c, r) && j.matches(l, r))
    ensures j.Partners(l, Scan(c, right)) == k.Partners(l, right)
    decreases |right|
  {
    if right != [] {
      assert right[0] in right;
      assert forall r :: r in right[1..] ==> r in right;
      PartnersOfScan(j, k, c, l, right[1..]);
      if CheckAllConds(c, right[0]) {
        assert ([right[0]] + Scan(c, right[1..]))[1..] == Scan(c, right[1..]);
      } else {
        assert Scan(c, right) == Scan(c, right[1..]);
      }
    }
  }

  lemma {:induction false} NoPartners(j: Join, l: Row, right: seq<Row>)
    requires forall r :: r in right ==> !j.matches(l, r)
    ensures j.Partners(l, right) == []
    decreases |right|
  {
    if right != [] {
      assert right[0] in right;
      assert forall r :: r in right[1..] ==> r in right;
      NoPartners(j, l, right[1..]);
    }
  }

  /** Joining two filtered inputs is joining the inputs by all the conditions. */
  lemma {:induction false} Pushdown(j: Join, k: Join, c: seq<Condition>, d: seq<Condition>, left: seq<Row>, right: seq<Row>)
    requires j.jt.Inner? && k.jt.Inner?
    requires forall l, r :: l in left && r in right ==>
                              (k.matches(l, r) <==> CheckAllConds(c, l) && CheckAllConds(d, r) && j.matches(l, r))
    ensures j.Rows(Scan(c, left), Scan(d, right)) == k.Rows(left, right)
    decreases |left|
  {
    if left != [] {
      var l, rest := left[0], left[1..];
      assert l in left;
      assert forall x :: x in rest ==> x in left;
      Pushdown(j, k, c, d, rest, right);
      if CheckAllConds(c, l) {
        PartnersOfScan(j, k, d, l, right);
        assert ([l] + Scan(c, rest))[1..] == Scan(c, rest);
      } else {
        NoPartners(k, l, right);
        assert Scan(c, left) == Scan(c, rest);
      }
    }
  }

  // ---- swapping the sides ----------------------------------------------------------

  /** The joined rows of one right row, left rows in order. */
  function Column(j: Join, left: seq<Row>, r: Row): seq<Row> {
    if left == [] then [] else (if j.matches(left[0], r) then [left[0] + r] else []) + Column(j, left[1..], r)
  }

  ghost predicate Mirrored(j: Join, k: Join, left: seq<Row>, right: seq<Row>) {
    forall l, r :: l in left && r in right ==> (j.matches(l, r) <==> k.matches(r, l)) && l + r == r + l
  }

  lemma {:induction false} ColumnIsPartners(j: Join, k: Join, left: seq<Row>, r: Row)
    requires Mirrored(j, k, left, [r])
    ensures Column(j, left, r) == k.Partners(r, left)
    decreases |left|
  {
    if left != [] {
      assert left[0] in left && r in [r];
      assert forall l :: l in left[1..] ==> l in left;
      ColumnIsPartners(j, k, left[1..], r);
    }
  }

  lemma {:induction false} LastColumn(j: Join, left: seq<Row>, r: Row, right: seq<Row>)
    requires j.jt.Inner?
    ensures multiset(j.Rows(left, [r] + right)) == multiset(Column(j, left, r)) + multiset(j.Rows(left, right))
    decreases |left|
  {
    if left != [] {
      LastColumn(j, left[1..], r, right);
      assert ([r] + right)[1..] == right;
    }
  }

  /** Either side may come first: the same bag of rows comes out. */
  lemma {:induction false} Swap(j: Join, k: Join, left: seq<Row>, right: seq<Row>)
    requires j.jt.Inner? && k.jt.Inner? && Mirrored(j, k, left, right)
    ensures multiset(j.Rows(left, right)) == multiset(k.Rows(right, left))
    decreases |right|
  {
    if right == [] {
      NoRight(j, left);
    } else {
      assert right[0] in right;
      assert forall r :: r in right[1..] ==> r in right;
      ColumnIsPartners(j, k, left, right[0]);
      LastColumn(j, left, right[0], right[1..]);
      assert [right[0]] + right[1..] == right;
      Swap(j, k, left, right[1..]);
    }
  }

  lemma {:induction false} NoRight(j: Join, left: seq<Row>)
    requires j.jt.Inner?
    ensures j.Rows(left, []) == []
  {
    if left != [] { NoRight(j, left[1..]); }
  }
}
