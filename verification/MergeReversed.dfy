/** The merge when the condition names the right side's column first: keys are compared the wrong
    way round, so the inputs move away from each other. */
module MergeReversed {
  import opened Conditions
  import opened JoinBags
  import opened JoinSpec
  import opened MergeSpec
  import opened MergeResult

  ghost predicate Reversed(m: Merging, left: seq<Row>, right: seq<Row>) {
    && !m.lhsIsLeft && m.join.jt.Inner? && m.MatchesAreKeys(left, right)
    && Sorted(left, m.leftKey) && Sorted(right, m.rightKey)
  }

  /** Where the second run of right keys starts. */
  function SecondRun(m: Merging, left: seq<Row>, right: seq<Row>): nat
    requires left != []
  {
    m.RunTo(left[0], right, 0)
  }

  /** No left key occurs on the right; or the first keys are equal, and of the later left rows only
      the second has a key that occurs, that of the second run of right keys. */
  ghost predicate Meets(m: Merging, left: seq<Row>, right: seq<Row>) {
    || (forall i :: 0 <= i < |left| ==> !m.Occurs(m.leftKey(left[i]), right))
    || (left != [] && right != [] && m.leftKey(left[0]) == m.rightKey(right[0])
        && forall i :: 0 < i < |left| && m.Occurs(m.leftKey(left[i]), right) ==> i == 1 && MeetsSecond(m, left, right))
  }

  predicate MeetsSecond(m: Merging, left: seq<Row>, right: seq<Row>)
    requires |left| > 1
  {
    SecondRun(m, left, right) < |right| && m.leftKey(left[1]) == m.rightKey(right[SecondRun(m, left, right)])
  }

  // ---- the steps of a reversed merge ----------------------------------------------------

  lemma KeysEqual(m: Merging, l: Row, r: Row)
    ensures m.CompareKeys(l, r) == 0 <==> m.leftKey(l) == m.rightKey(r)
    ensures !m.lhsIsLeft ==> (m.CompareKeys(l, r) < 0 <==> Cmp(m.leftKey(l), m.rightKey(r)) > 0)
  {
    CmpOrder(m.leftKey(l), m.rightKey(r), m.leftKey(l));
    CmpOrder(m.rightKey(r), m.leftKey(l), m.rightKey(r));
  }

  /** Down the left input keys grow. */
  lemma LeftGrows(m: Merging, left: seq<Row>, right: seq<Row>, i: nat, j: nat, x: nat)
    requires !m.lhsIsLeft && Sorted(left, m.leftKey) && i <= j < |left| && x < |right|
    ensures m.CompareKeys(left[i], right[x]) < 0 ==> m.CompareKeys(left[j], right[x]) < 0
  {
    CmpOrder(m.rightKey(right[x]), m.leftKey(left[i]), m.leftKey(left[j]));
  }

  /** Down the right input too. */
  lemma RightGrows(m: Merging, l: Row, right: seq<Row>, x: nat, y: nat)
    requires !m.lhsIsLeft && Sorted(right, m.rightKey) && x <= y < |right|
    ensures m.CompareKeys(l, right[x]) > 0 ==> m.CompareKeys(l, right[y]) > 0
    ensures m.CompareKeys(l, right[x]) >= 0 ==> m.CompareKeys(l, right[y]) >= 0
  {
    var a, b, k := m.rightKey(right[x]), m.rightKey(right[y]), m.leftKey(l);
    CmpOrder(k, a, b);
    CmpOrder(a, k, a);
    CmpOrder(b, k, b);
    CmpOrder(k, b, k);
  }

  /** From different first keys the inputs never meet. */
  lemma {:induction false} NeverMeets(m: Merging, left: seq<Row>, right: seq<Row>, i: nat, p: nat)
    requires !m.lhsIsLeft && Sorted(left, m.leftKey) && Sorted(right, m.rightKey)
    requires i < |left| && p < |right| && m.CompareKeys(left[i], right[p]) != 0
    ensures m.Start(left, right, i, p) == []
    decreases |left| - i, |right| - p
  {
    if m.CompareKeys(left[i], right[p]) < 0 {
      if i + 1 < |left| {
        LeftGrows(m, left, right, i, i + 1, p);
        NeverMeets(m, left, right, i + 1, p);
      }
    } else if p + 1 < |right| {
      RightGrows(m, left[i], right, p, p + 1);
      NeverMeets(m, left, right, i, p + 1);
    }
  }

  /** A left row above the first right key collects nothing, and neither do the rows after it. */
  lemma {:induction false} AboveFirst(m: Merging, left: seq<Row>, right: seq<Row>, i: nat)
    requires !m.lhsIsLeft && Sorted(left, m.leftKey) && right != []
    requires i < |left| ==> m.CompareKeys(left[i], right[0]) < 0
    ensures m.From(left, right, i, 0) == []
    decreases |left| - i
  {
    if i < |left| {
      if i + 1 < |left| { LeftGrows(m, left, right, i, i + 1, 0); }
      AboveFirst(m, left, right, i + 1);
    }
  }

  /** Not below the left row's key, everything is collected. */
  lemma {:induction false} TakesAll(m: Merging, l: Row, right: seq<Row>, p: nat)
    requires !m.lhsIsLeft && Sorted(right, m.rightKey) && p <= |right|
    requires p < |right| ==> m.CompareKeys(l, right[p]) >= 0
    ensures m.TakeTo(l, right, p) == |right|
    decreases |right| - p
  {
    if p + 1 < |right| { RightGrows(m, l, right, p, p + 1); }
    if p < |right| { TakesAll(m, l, right, p + 1); }
  }

  // ---- what is yielded is no more than the join ------------------------------------------

  lemma PartsOfPartners(m: Merging, l: Row, right: seq<Row>, s: nat, q: nat)
    requires s <= q <= |right|
    ensures |m.join.Partners(l, right[s..q])| <= |m.join.Partners(l, right)|
  {
    assert right == right[..s] + (right[s..q] + right[q..]);
    PartnersConcat(m.join, l, right[..s], right[s..q] + right[q..]);
    PartnersConcat(m.join, l, right[s..q], right[q..]);
  }

  lemma {:induction false} FromBound(m: Merging, left: seq<Row>, right: seq<Row>, i: nat, p: nat)
    requires m.join.jt.Inner? && i <= |left| && p <= |right|
    ensures |m.From(left, right, i, p)| <= |m.join.Rows(left[i..], right)|
    decreases |left| - i
  {
    if i < |left| {
      var q := m.TakeTo(left[i], right, p);
      var s := m.SkipTo(left[i], right, p, q);
      m.FromUnfold(left, right, i, p);
      m.RowsFrom(left, right, i);
      PartsOfPartners(m, left[i], right, s, q);
      FromBound(m, left, right, i + 1, if s < q then q else 0);
    }
  }

  /** A left row has partners exactly when its key occurs. */
  lemma PartnersIffOccurs(m: Merging, left: seq<Row>, right: seq<Row>, i: nat)
    requires m.MatchesAreKeys(left, right) && i < |left|
    ensures m.join.Partners(left[i], right) == [] <==> !m.Occurs(m.leftKey(left[i]), right)
  {
    forall x | 0 <= x < |right| ensures m.join.matches(left[i], right[x]) <==> Cmp(m.leftKey(left[i]), m.rightKey(right[x])) == 0 {
      KeysEqual(m, left[i], right[x]);
      CmpOrder(m.leftKey(left[i]), m.rightKey(right[x]), m.leftKey(left[i]));
    }
    if y: nat :| y < |right| && m.join.matches(left[i], right[y]) {
      m.HasPartner(left[i], right, y);
    } else {
      m.NoPartners(left[i], right);
    }
  }

  lemma {:induction false} RowsIffOccur(m: Merging, left: seq<Row>, right: seq<Row>, i: nat)
    requires m.MatchesAreKeys(left, right) && m.join.jt.Inner? && i <= |left|
    ensures m.join.Rows(left[i..], right) == [] <==> forall j :: i <= j < |left| ==> !m.Occurs(m.leftKey(left[j]), right)
    decreases |left| - i
  {
    if i < |left| {
      m.RowsFrom(left, right, i);
      PartnersIffOccurs(m, left, right, i);
      RowsIffOccur(m, left, right, i + 1);
    }
  }

  // ---- after the first run -----------------------------------------------------------------

  /** A second left row with another key is above the first right key. */
  lemma SecondAbove(m: Merging, left: seq<Row>, right: seq<Row>)
    requires !m.lhsIsLeft && Sorted(left, m.leftKey) && |left| > 1 && right != []
    requires m.leftKey(left[0]) == m.rightKey(right[0]) && m.leftKey(left[1]) != m.leftKey(left[0])
    ensures m.CompareKeys(left[1], right[0]) < 0
  {
    KeysEqual(m, left[1], right[0]);
    CmpOrder(m.leftKey(left[0]), m.leftKey(left[1]), m.leftKey(left[0]));
  }

  /** With the right input used up a row yields nothing, and neither does any row after it that is
      above the first right key. */
  lemma UsedUp(m: Merging, left: seq<Row>, right: seq<Row>, i: nat)
    requires !m.lhsIsLeft && Sorted(left, m.leftKey) && right != []
    requires i < |left| ==> m.CompareKeys(left[i], right[0]) < 0
    ensures m.From(left, right, i, |right|) == []
  {
    if i < |left| {
      m.FromUnfold(left, right, i, |right|);
      if i + 1 < |left| { LeftGrows(m, left, right, i, i + 1, 0); }
      AboveFirst(m, left, right, i + 1);
      assert m.TakeTo(left[i], right, |right|) == |right|;
    }
  }

  /** The second left row meets the second run: it yields its partners, and no later row any. */
  lemma SecondMeets(m: Merging, left: seq<Row>, right: seq<Row>)
    requires Reversed(m, left, right) && |left| > 1 && right != []
    requires m.leftKey(left[0]) == m.rightKey(right[0]) && MeetsSecond(m, left, right)
    ensures m.From(left, right, 1, SecondRun(m, left, right)) == m.join.Partners(left[1], right)
    ensures m.CompareKeys(left[1], right[0]) < 0
  {
    var q, l := SecondRun(m, left, right), left[1];
    KeysEqual(m, l, right[q]);
    KeysEqual(m, left[0], right[q]);
    SecondAbove(m, left, right);
    TakesAll(m, l, right, q);
    m.FromUnfold(left, right, 1, q);
    if |left| > 2 { LeftGrows(m, left, right, 1, 2, 0); }
    UsedUp(m, left, right, 2);
    PartnersFrom(m, left, right, q);
    assert m.join.Partners(l, right[q..|right|]) + [] == m.join.Partners(l, right);
  }

  /** No row of the first run is a partner of a left row with another key. */
  lemma PartnersFrom(m: Merging, left: seq<Row>, right: seq<Row>, q: nat)
    requires Reversed(m, left, right) && |left| > 1 && right != [] && q == SecondRun(m, left, right)
    requires m.leftKey(left[1]) != m.leftKey(left[0])
    ensures m.join.Partners(left[1], right[q..|right|]) == m.join.Partners(left[1], right)
  {
    var l := left[1];
    assert [l][0] == l && m.KeysFit([l], right);
    forall x | 0 <= x < |right| && m.CompareKeys(l, right[x]) == 0 ensures q <= x {
      KeysEqual(m, l, right[x]);
      KeysEqual(m, left[0], right[x]);
    }
    m.PartnersInRun(l, right, q, |right|);
  }

  /** A second left row that does not meet the second run yields nothing and rewinds. */
  lemma SecondMisses(m: Merging, left: seq<Row>, right: seq<Row>)
    requires Reversed(m, left, right) && |left| > 1 && right != []
    requires m.leftKey(left[0]) == m.rightKey(right[0]) && !MeetsSecond(m, left, right)
    ensures m.From(left, right, 1, SecondRun(m, left, right)) == m.From(left, right, 2, 0)
  {
    var q, l := SecondRun(m, left, right), left[1];
    if q < |right| && m.CompareKeys(l, right[q]) >= 0 {
      TakesAll(m, l, right, q);
      NoneEqual(m, l, right, q);
    } else {
      assert m.TakeTo(l, right, q) == q;
    }
    m.FromUnfold(left, right, 1, q);
    var t := m.TakeTo(l, right, q);
    assert m.SkipTo(l, right, q, t) == t && right[t..t] == [];
    assert [] + m.From(left, right, 2, 0) == m.From(left, right, 2, 0);
  }

  /** Below the second run's key, nothing collected is equal. */
  lemma NoneEqual(m: Merging, l: Row, right: seq<Row>, q: nat)
    requires !m.lhsIsLeft && Sorted(right, m.rightKey) && q < |right|
    requires m.CompareKeys(l, right[q]) >= 0 && m.leftKey(l) != m.rightKey(right[q])
    ensures m.SkipTo(l, right, q, |right|) == |right|
  {
    KeysEqual(m, l, right[q]);
    var s := m.SkipTo(l, right, q, |right|);
    if s < |right| { RightGrows(m, l, right, q, s); }
  }

  /** The first run yields the first left row's partners. */
  lemma FirstMeets(m: Merging, left: seq<Row>, right: seq<Row>)
    requires Reversed(m, left, right) && left != [] && right != []
    requires m.leftKey(left[0]) == m.rightKey(right[0])
    ensures m.Start(left, right, 0, 0) == m.join.Partners(left[0], right) + m.From(left, right, 1, SecondRun(m, left, right))
  {
    var l, q := left[0], SecondRun(m, left, right);
    KeysEqual(m, l, right[0]);
    assert [l][0] == l && m.KeysFit([l], right);
    forall x | 0 <= x < |right| && m.CompareKeys(l, right[x]) == 0 ensures x < q {
      if q <= x {
        RightGrows(m, l, right, 0, q);
        RightGrows(m, l, right, q, x);
      }
    }
    m.PartnersInRun(l, right, 0, q);
  }

  // ---- the exact condition --------------------------------------------------------------------

  /** No left row from the third on has a key that occurs. */
  ghost predicate NoneLater(m: Merging, left: seq<Row>, right: seq<Row>) {
    forall j :: 2 <= j < |left| ==> !m.Occurs(m.leftKey(left[j]), right)
  }

  lemma MeetsAfter(m: Merging, left: seq<Row>, right: seq<Row>)
    requires |left| > 1 && right != [] && m.leftKey(left[0]) == m.rightKey(right[0])
    ensures Meets(m, left, right) <==>
            (m.Occurs(m.leftKey(left[1]), right) ==> MeetsSecond(m, left, right)) && NoneLater(m, left, right)
  {
    FirstOccurs(m, left, right);
  }

  lemma AfterMeeting(m: Merging, left: seq<Row>, right: seq<Row>)
    requires Reversed(m, left, right) && |left| > 1 && right != [] && m.leftKey(left[0]) == m.rightKey(right[0])
    requires MeetsSecond(m, left, right)
    ensures var rest := m.From(left, right, 1, SecondRun(m, left, right));
            && (NoneLater(m, left, right) ==> rest == m.join.Rows(left[1..], right))
            && (!NoneLater(m, left, right) ==> |rest| < |m.join.Rows(left[1..], right)|)
  {
    SecondMeets(m, left, right);
    m.RowsFrom(left, right, 1);
    RowsIffOccur(m, left, right, 2);
    assert m.join.Partners(left[1], right) + [] == m.join.Partners(left[1], right);
  }

  lemma AfterMissing(m: Merging, left: seq<Row>, right: seq<Row>)
    requires Reversed(m, left, right) && |left| > 1 && right != [] && m.leftKey(left[0]) == m.rightKey(right[0])
    requires !MeetsSecond(m, left, right)
    ensures var rest, clean := m.From(left, right, 1, SecondRun(m, left, right)), !m.Occurs(m.leftKey(left[1]), right) && NoneLater(m, left, right);
            && (clean ==> rest == m.join.Rows(left[1..], right))
            && (!clean ==> |rest| < |m.join.Rows(left[1..], right)|)
  {
    SecondMisses(m, left, right);
    m.RowsFrom(left, right, 1);
    RowsIffOccur(m, left, right, 2);
    PartnersIffOccurs(m, left, right, 1);
    if m.Occurs(m.leftKey(left[1]), right) {
      FromBound(m, left, right, 2, 0);
    } else {
      FirstOccurs(m, left, right);
      SecondAbove(m, left, right);
      if |left| > 2 { LeftGrows(m, left, right, 1, 2, 0); }
      AboveFirst(m, left, right, 2);
    }
  }

  lemma AfterFirst(m: Merging, left: seq<Row>, right: seq<Row>)
    requires Reversed(m, left, right) && left != [] && right != [] && m.leftKey(left[0]) == m.rightKey(right[0])
    ensures var rest := m.From(left, right, 1, SecondRun(m, left, right));
            && (Meets(m, left, right) ==> rest == m.join.Rows(left[1..], right))
            && (!Meets(m, left, right) ==> |rest| < |m.join.Rows(left[1..], right)|)
  {
    if |left| > 1 {
      MeetsAfter(m, left, right);
      if MeetsSecond(m, left, right) {
        SecondKeyOccurs(m, left, right);
        AfterMeeting(m, left, right);
      } else {
        AfterMissing(m, left, right);
      }
    }
  }

  lemma SecondKeyOccurs(m: Merging, left: seq<Row>, right: seq<Row>)
    requires |left| > 1 && MeetsSecond(m, left, right)
    ensures m.Occurs(m.leftKey(left[1]), right)
  {
    var q := SecondRun(m, left, right);
    CmpOrder(m.leftKey(left[1]), m.rightKey(right[q]), m.leftKey(left[1]));
  }

  lemma FirstOccurs(m: Merging, left: seq<Row>, right: seq<Row>)
    requires left != [] && right != [] && m.leftKey(left[0]) == m.rightKey(right[0])
    ensures m.Occurs(m.leftKey(left[0]), right)
  {
    CmpOrder(m.leftKey(left[0]), m.rightKey(right[0]), m.leftKey(left[0]));
  }

  /** A reversed merge yields the join, as a sequence or as a bag, if and only if no left key occurs
      on the right, or the first keys are equal and of the later left rows only the second has a
      partner, in the second run. */
  lemma ReversedMergeIff(m: Merging, left: seq<Row>, right: seq<Row>)
    requires Reversed(m, left, right)
    ensures m.Start(left, right, 0, 0) == m.join.Rows(left, right) <==> Meets(m, left, right)
    ensures multiset(m.Start(left, right, 0, 0)) == multiset(m.join.Rows(left, right)) <==> Meets(m, left, right)
  {
    assert left[0..] == left;
    RowsIffOccur(m, left, right, 0);
    var out, rows := m.Start(left, right, 0, 0), m.join.Rows(left, right);
    if left == [] || right == [] {
      assert out == [] && rows == [];
    } else {
      KeysEqual(m, left[0], right[0]);
      if m.leftKey(left[0]) == m.rightKey(right[0]) {
        FirstMeets(m, left, right);
        m.RowsFrom(left, right, 0);
        AfterFirst(m, left, right);
      } else {
        NeverMeets(m, left, right, 0, 0);
      }
    }
    if multiset(out) == multiset(rows) { assert |multiset(out)| == |multiset(rows)|; }
  }

  /** The same for the inputs before they are sorted. */
  lemma ReversedJoinIff(m: Merging, l: seq<Row>, r: seq<Row>, left: seq<Row>, right: seq<Row>)
    requires SortOf(left, l, m.leftKey) && SortOf(right, r, m.rightKey)
    requires !m.lhsIsLeft && m.join.jt.Inner? && m.MatchesAreKeys(left, right)
    ensures multiset(m.Start(left, right, 0, 0)) == multiset(m.join.Rows(l, r)) <==> Meets(m, left, right)
  {
    ReversedMergeIff(m, left, right);
    RowsBag(m.join, left, l, right, r);
  }
}
