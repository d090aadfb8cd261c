/** The relational join of two inputs is, as a bag, a function of the two bags of rows. */
module JoinBags {
  import opened Conditions
  import opened JoinSpec

  /** `x` moved to the front. */
  lemma SplitAt(s: seq<Row>, x: Row) returns (a: seq<Row>, b: seq<Row>)
    requires x in s
    ensures s == a + [x] + b
  {
    var i :| 0 <= i < |s| && s[i] == x;
    a, b := s[..i], s[i + 1..];
  }

  /** Taking `x` out of two equal bags leaves equal bags. */
  lemma DropSame(s: seq<Row>, t: seq<Row>) returns (a: seq<Row>, b: seq<Row>)
    requires s != [] && multiset(s) == multiset(t)
    ensures t == a + [s[0]] + b && multiset(s[1..]) == multiset(a + b)
  {
    var x := s[0];
    assert s == [x] + s[1..];
    assert x in multiset(t);
    a, b := SplitAt(t, x);
    assert multiset(t) == multiset(a + b) + multiset{x};
    assert multiset(s) - multiset{x} == multiset(s[1..]);
  }

  lemma Assoc(a: seq<Row>, b: seq<Row>, c: seq<Row>)
    ensures (a + b) + c == a + (b + c)
  {
  }

  lemma {:induction false} PartnersConcat(join: Join, l: Row, a: seq<Row>, b: seq<Row>)
    ensures join.Partners(l, a + b) == join.Partners(l, a) + join.Partners(l, b)
    decreases |a|
  {
    if a == [] {
      assert a + b == b;
    } else {
      PartnersConcat(join, l, a[1..], b);
      assert (a + b)[1..] == a[1..] + b && (a + b)[0] == a[0];
      Assoc(if join.matches(l, a[0]) then [l + a[0]] else [], join.Partners(l, a[1..]), join.Partners(l, b));
    }
  }

  lemma {:induction false} RowsConcat(join: Join, a: seq<Row>, b: seq<Row>, right: seq<Row>)
    ensures join.Rows(a + b, right) == join.Rows(a, right) + join.Rows(b, right)
    decreases |a|
  {
    if a == [] {
      assert a + b == b;
    } else {
      RowsConcat(join, a[1..], b, right);
      assert (a + b)[1..] == a[1..] + b && (a + b)[0] == a[0];
      Assoc(join.Block(a[0], right), join.Rows(a[1..], right), join.Rows(b, right));
    }
  }

  /** The partners of a row do not depend on the order of the right input. */
  lemma {:induction false} PartnersBag(join: Join, l: Row, r: seq<Row>, r': seq<Row>)
    requires multiset(r) == multiset(r')
    ensures multiset(join.Partners(l, r)) == multiset(join.Partners(l, r'))
    decreases |r|
  {
    if r == [] {
      assert |multiset(r')| == 0;
    } else {
      var a, b := DropSame(r, r');
      PartnersBag(join, l, r[1..], a + b);
      PartnersConcat(join, l, a, b);
      PartnersConcat(join, l, a + [r[0]], b);
      PartnersConcat(join, l, a, [r[0]]);
      assert [r[0]][1..] == [];
    }
  }

  lemma {:induction false} RowsRightBag(join: Join, left: seq<Row>, r: seq<Row>, r': seq<Row>)
    requires multiset(r) == multiset(r')
    ensures multiset(join.Rows(left, r)) == multiset(join.Rows(left, r'))
  {
    if left != [] {
      PartnersBag(join, left[0], r, r');
      var p, p' := join.Partners(left[0], r), join.Partners(left[0], r');
      assert |multiset(p)| == |multiset(p')|;
      RowsRightBag(join, left[1..], r, r');
    }
  }

  lemma {:induction false} RowsLeftBag(join: Join, l: seq<Row>, l': seq<Row>, right: seq<Row>)
    requires multiset(l) == multiset(l')
    ensures multiset(join.Rows(l, right)) == multiset(join.Rows(l', right))
    decreases |l|
  {
    if l == [] {
      assert |multiset(l')| == 0;
    } else {
      var a, b := DropSame(l, l');
      RowsLeftBag(join, l[1..], a + b, right);
      RowsConcat(join, a, b, right);
      RowsConcat(join, a + [l[0]], b, right);
      RowsConcat(join, a, [l[0]], right);
      assert [l[0]][1..] == [];
    }
  }

  /** Reordering either input reorders the join's rows and changes nothing else. */
  lemma RowsBag(join: Join, l: seq<Row>, l': seq<Row>, r: seq<Row>, r': seq<Row>)
    requires multiset(l) == multiset(l') && multiset(r) == multiset(r')
    ensures multiset(join.Rows(l, r)) == multiset(join.Rows(l', r'))
  {
    RowsRightBag(join, l, r, r');
    RowsLeftBag(join, l, l', r');
  }
}
