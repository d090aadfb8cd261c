/** What merging two sorted inputs yields, and when that is the relational join. */
module MergeSpec {
  import opened Conditions
  import opened JoinBags
  import opened JoinSpec

  /** The order the merge compares keys by. Keys of one join have one type; the order of the
      types only makes the function total. */
  function Cmp(a: Value, b: Value): int {
    if a.Type() == b.Type() then Compare(a, b)
    else if a.IntV? || (a.FloatV? && b.StrV?) then -1
    else 1
  }

  lemma CmpOrder(a: Value, b: Value, c: Value)
    ensures Cmp(a, b) == 0 <==> a == b
    ensures Cmp(a, b) < 0 <==> Cmp(b, a) > 0
    ensures Cmp(a, b) <= 0 && Cmp(b, c) <= 0 ==> Cmp(a, c) <= 0
    ensures Cmp(a, b) <= 0 && Cmp(b, c) < 0 ==> Cmp(a, c) < 0
    ensures Cmp(a, b) < 0 && Cmp(b, c) <= 0 ==> Cmp(a, c) < 0
  {
    if a.Type() == b.Type() == c.Type() {
      CompareOrder(a, b, c);
    } else if a.Type() == b.Type() {
      CompareOrder(a, b, a);
    } else if b.Type() == c.Type() {
      CompareOrder(b, c, b);
    }
  }

  ghost predicate Sorted(rows: seq<Row>, key: Row -> Value) {
    forall i, j :: 0 <= i < j < |rows| ==> Cmp(key(rows[i]), key(rows[j])) <= 0
  }

  /** A merge join: the join, the key each side's rows are sorted by, and whether the condition
      names the left side's column first. Keys are compared in the order the condition names them. */
  datatype Merging = Merging(join: Join, leftKey: Row -> Value, rightKey: Row -> Value, lhsIsLeft: bool) {

    function CompareKeys(l: Row, r: Row): int {
      if lhsIsLeft then Cmp(leftKey(l), rightKey(r)) else Cmp(rightKey(r), leftKey(l))
    }

    /** Rows that match have the same key. */
    ghost predicate KeysFit(left: seq<Row>, right: seq<Row>) {
      forall i, j :: 0 <= i < |left| && 0 <= j < |right| && join.matches(left[i], right[j]) ==>
                       CompareKeys(left[i], right[j]) == 0
    }

    // ---- the merge, step by step --------------------------------------------

    /** Collecting right rows from `p` on stops at the first key above the left row's ... */
    function TakeTo(l: Row, right: seq<Row>, p: nat): (q: nat)
      requires p <= |right|
      ensures p <= q <= |right|
      ensures forall x :: p <= x < q ==> CompareKeys(l, right[x]) >= 0
      ensures q < |right| ==> CompareKeys(l, right[q]) < 0
      decreases |right| - p
    {
      if p < |right| && CompareKeys(l, right[p]) >= 0 then TakeTo(l, right, p + 1) else p
    }

    /** ... and of those collected, the ones before the first equal key are dropped. */
    function SkipTo(l: Row, right: seq<Row>, p: nat, q: nat): (s: nat)
      requires p <= q <= |right|
      ensures p <= s <= q
      ensures forall x :: p <= x < s ==> CompareKeys(l, right[x]) != 0
      ensures s < q ==> CompareKeys(l, right[s]) == 0
      decreases q - p
    {
      if p < q && CompareKeys(l, right[p]) != 0 then SkipTo(l, right, p + 1, q) else p
    }

    /** What the left rows from `i` on yield when the right input stands at `p`. A left row that
        collects nothing sends the right input back to its start. */
    function From(left: seq<Row>, right: seq<Row>, i: nat, p: nat): seq<Row>
      requires p <= |right|
      decreases |left| - i
    {
      if i >= |left| then []
      else
        var q := TakeTo(left[i], right, p);
        var s := SkipTo(left[i], right, p, q);
        if s < q then join.Partners(left[i], right[s..q]) + From(left, right, i + 1, q)
        else From(left, right, i + 1, 0)
    }

    lemma {:induction false} EmptyRight(left: seq<Row>, i: nat)
      ensures From(left, [], i, 0) == []
      decreases |left| - i
    {
      if i < |left| { EmptyRight(left, i + 1); }
    }

    /** One step of the merge; with no right rows at all nothing is yielded. */
    lemma FromUnfold(left: seq<Row>, right: seq<Row>, i: nat, p: nat)
      requires p <= |right| && i < |left|
      ensures var q := TakeTo(left[i], right, p); var s := SkipTo(left[i], right, p, q);
              From(left, right, i, p) == join.Partners(left[i], right[s..q]) + From(left, right, i + 1, if s < q then q else 0)
      ensures right == [] ==> From(left, right, i, p) == []
    {
      EmptyRight(left, i);
      var q := TakeTo(left[i], right, p);
      assert right[q..q] == [];
      assert [] + From(left, right, i + 1, 0) == From(left, right, i + 1, 0);
    }

    /** The run of keys equal to the left row's. */
    function RunTo(l: Row, right: seq<Row>, p: nat): (q: nat)
      requires p <= |right|
      ensures p <= q <= |right|
      ensures forall x :: p <= x < q ==> CompareKeys(l, right[x]) == 0
      ensures q < |right| ==> CompareKeys(l, right[q]) != 0
      decreases |right| - p
    {
      if p < |right| && CompareKeys(l, right[p]) == 0 then RunTo(l, right, p + 1) else p
    }

    /** The first merge step: both inputs advance to the first equal keys. */
    function Start(left: seq<Row>, right: seq<Row>, i: nat, p: nat): seq<Row>
      decreases |left| - i, |right| - p
    {
      if i >= |left| || p >= |right| then []
      else
        var cmp := CompareKeys(left[i], right[p]);
        if cmp < 0 then Start(left, right, i + 1, p)
        else if cmp > 0 then Start(left, right, i, p + 1)
        else
          var q := RunTo(left[i], right, p);
          join.Partners(left[i], right[p..q]) + From(left, right, i + 1, q)
    }

    // ---- what is lost -----------------------------------------------------------

    ghost predicate Occurs(k: Value, right: seq<Row>) {
      exists x :: 0 <= x < |right| && Cmp(k, rightKey(right[x])) == 0
    }

    /** A left row is lost when the row before it has the same key, that key occurs on the right,
        and the row before it is not itself lost: the right input is already past the key. */
    ghost predicate Lost(left: seq<Row>, right: seq<Row>, i: nat)
      requires i < |left|
    {
      i > 0 && leftKey(left[i - 1]) == leftKey(left[i]) && Occurs(leftKey(left[i]), right) && !Lost(left, right, i - 1)
    }

    /** The left rows from `i` on that are not lost. */
    ghost function Kept(left: seq<Row>, right: seq<Row>, i: nat): seq<Row>
      decreases |left| - i
    {
      if i >= |left| then []
      else (if Lost(left, right, i) then [] else [left[i]]) + Kept(left, right, i + 1)
    }

    // ---- the merge yields the join of the kept rows --------------------------------

    lemma {:induction false} NoPartners(l: Row, right: seq<Row>)
      requires forall x :: 0 <= x < |right| ==> !join.matches(l, right[x])
      ensures join.Partners(l, right) == []
    {
      if right != [] { NoPartners(l, right[1..]); }
    }

    /** The partners of a row lie where its key does. */
    lemma PartnersInRun(l: Row, right: seq<Row>, s: nat, q: nat)
      requires s <= q <= |right| && KeysFit([l], right)
      requires forall x :: 0 <= x < |right| && CompareKeys(l, right[x]) == 0 ==> s <= x < q
      ensures join.Partners(l, right[s..q]) == join.Partners(l, right)
    {
      assert [l][0] == l;
      var a, b, c := right[..s], right[s..q], right[q..];
      assert right == a + (b + c);
      PartnersConcat(join, l, a, b + c);
      PartnersConcat(join, l, b, c);
      assert forall x :: 0 <= x < |a| ==> a[x] == right[x];
      assert forall x :: 0 <= x < |c| ==> c[x] == right[q + x];
      NoPartners(l, a);
      NoPartners(l, c);
    }

    /** All rows at or after a key above `k` are above `k`; all rows before a key not above `k`
        are not above `k`. */
    lemma SortedAround(k: Value, right: seq<Row>, x: nat, y: nat)
      requires Sorted(right, rightKey) && x <= y < |right|
      ensures Cmp(k, rightKey(right[x])) < 0 ==> Cmp(k, rightKey(right[y])) < 0
      ensures Cmp(k, rightKey(right[y])) > 0 ==> Cmp(k, rightKey(right[x])) > 0
    {
      CmpOrder(k, rightKey(right[x]), rightKey(right[y]));
      CmpOrder(rightKey(right[x]), rightKey(right[y]), k);
      CmpOrder(k, rightKey(right[y]), k);
      CmpOrder(k, rightKey(right[x]), k);
    }

    /** From a place not past the key, collecting finds exactly the rows with the key. */
    lemma CollectsRun(l: Row, right: seq<Row>, p: nat)
      requires lhsIsLeft
      requires Sorted(right, rightKey) && p <= |right|
      requires forall x :: 0 <= x < p ==> CompareKeys(l, right[x]) > 0
      ensures var q := TakeTo(l, right, p); var s := SkipTo(l, right, p, q);
              && (forall x :: 0 <= x < |right| && CompareKeys(l, right[x]) == 0 ==> s <= x < q)
              && (s < q <==> Occurs(leftKey(l), right))
    {
      var q := TakeTo(l, right, p);
      var s := SkipTo(l, right, p, q);
      forall x | 0 <= x < |right| && CompareKeys(l, right[x]) == 0 ensures s <= x < q {
        if x >= q { SortedAround(leftKey(l), right, q, x); }
      }
    }

    /** Past the key, collecting finds nothing. */
    lemma CollectsNothing(l: Row, right: seq<Row>, p: nat)
      requires p <= |right| && (p < |right| ==> CompareKeys(l, right[p]) < 0)
      ensures TakeTo(l, right, p) == p
    {
    }

    /** The right input stands at its start, or just past the key of the left row before `i`. */
    ghost predicate Stands(left: seq<Row>, right: seq<Row>, i: nat, p: nat)
      requires i <= |left|
    {
      if i > 0 && Occurs(leftKey(left[i - 1]), right) && !Lost(left, right, i - 1) then
        p == TakeTo(left[i - 1], right, 0)
      else
        p == 0
    }

    /** How far collecting goes does not depend on where it started below the key. */
    lemma {:induction false} SameTake(l: Row, right: seq<Row>, p: nat)
      requires p <= |right| && forall x :: 0 <= x < p ==> CompareKeys(l, right[x]) >= 0
      ensures TakeTo(l, right, p) == TakeTo(l, right, 0)
    {
    }

    lemma {:induction false} SameTakeSameKey(a: Row, b: Row, right: seq<Row>, p: nat)
      requires p <= |right| && leftKey(a) == leftKey(b)
      ensures TakeTo(a, right, p) == TakeTo(b, right, p)
      decreases |right| - p
    {
      if p < |right| { SameTakeSameKey(a, b, right, p + 1); }
    }

    /** Before a row that is not lost the right input is not past its key. */
    lemma NotPastKey(left: seq<Row>, right: seq<Row>, i: nat, p: nat)
      requires lhsIsLeft
      requires Sorted(left, leftKey) && i < |left| && p <= |right| && Stands(left, right, i, p)
      requires !Lost(left, right, i)
      ensures forall x :: 0 <= x < p ==> CompareKeys(left[i], right[x]) > 0
    {
      if p > 0 {
        var a, b := leftKey(left[i - 1]), leftKey(left[i]);
        forall x | 0 <= x < p ensures Cmp(b, rightKey(right[x])) > 0 {
          CmpOrder(a, b, a);
          CmpOrder(rightKey(right[x]), a, b);
          CmpOrder(a, rightKey(right[x]), a);
          CmpOrder(rightKey(right[x]), b, a);
        }
      }
    }

    /** A lost row yields nothing, and the right input goes back to its start. */
    lemma LostStep(left: seq<Row>, right: seq<Row>, i: nat, p: nat)
      requires lhsIsLeft
      requires i < |left| && p <= |right| && Stands(left, right, i, p) && Lost(left, right, i)
      ensures From(left, right, i, p) == From(left, right, i + 1, 0) && Stands(left, right, i + 1, 0)
    {
      SameTakeSameKey(left[i - 1], left[i], right, 0);
      CollectsNothing(left[i], right, p);
    }

    /** Any other row yields all its partners. */
    lemma KeptStep(left: seq<Row>, right: seq<Row>, i: nat, p: nat) returns (next: nat)
      requires lhsIsLeft
      requires Sorted(left, leftKey) && Sorted(right, rightKey) && i < |left| && KeysFit([left[i]], right)
      requires p <= |right| && Stands(left, right, i, p) && !Lost(left, right, i)
      ensures next <= |right| && Stands(left, right, i + 1, next)
      ensures From(left, right, i, p) == join.Partners(left[i], right) + From(left, right, i + 1, next)
    {
      var l := left[i];
      var q := TakeTo(l, right, p);
      var s := SkipTo(l, right, p, q);
      NotPastKey(left, right, i, p);
      CollectsRun(l, right, p);
      PartnersInRun(l, right, s, q);
      SameTake(l, right, p);
      next := if s < q then q else 0;
      if s == q {
        assert right[s..q] == [];
        assert [] + From(left, right, i + 1, 0) == From(left, right, i + 1, 0);
      }
    }

    lemma RowsOfKept(left: seq<Row>, right: seq<Row>, i: nat)
      requires i < |left| && join.jt.Inner?
      ensures join.Rows(Kept(left, right, i), right) ==
              if Lost(left, right, i) then join.Rows(Kept(left, right, i + 1), right)
              else join.Partners(left[i], right) + join.Rows(Kept(left, right, i + 1), right)
    {
      var rest := Kept(left, right, i + 1);
      if Lost(left, right, i) {
        assert [] + rest == rest;
      } else {
        assert ([left[i]] + rest)[0] == left[i] && ([left[i]] + rest)[1..] == rest;
      }
    }

    lemma MergeStep(left: seq<Row>, right: seq<Row>, i: nat, p: nat) returns (next: nat)
      requires lhsIsLeft
      requires Sorted(left, leftKey) && Sorted(right, rightKey) && i < |left| && KeysFit(left, right)
      requires p <= |right| && Stands(left, right, i, p)
      ensures next <= |right| && Stands(left, right, i + 1, next)
      ensures From(left, right, i, p) ==
              (if Lost(left, right, i) then From(left, right, i + 1, next)
               else join.Partners(left[i], right) + From(left, right, i + 1, next))
    {
      if Lost(left, right, i) {
        LostStep(left, right, i, p);
        next := 0;
      } else {
        assert [left[i]][0] == left[i];
        next := KeptStep(left, right, i, p);
      }
    }

    /** The merge from row `i` on yields the join of the rows from `i` on that are not lost. */
    lemma {:induction false} FromIsKept(left: seq<Row>, right: seq<Row>, i: nat, p: nat)
      requires lhsIsLeft
      requires Sorted(left, leftKey) && Sorted(right, rightKey) && KeysFit(left, right)
      requires i <= |left| && p <= |right| && Stands(left, right, i, p) && join.jt.Inner?
      ensures From(left, right, i, p) == join.Rows(Kept(left, right, i), right)
      decreases |left| - i
    {
      if i < |left| {
        var next := MergeStep(left, right, i, p);
        FromIsKept(left, right, i + 1, next);
        RowsOfKept(left, right, i);
      }
    }

    // ---- the first step -----------------------------------------------------------

    /** Rows without a partner key yield nothing and lose nothing. */
    lemma NoKeyNoRows(left: seq<Row>, right: seq<Row>, i: nat)
      requires lhsIsLeft
      requires i < |left| && KeysFit(left, right) && join.jt.Inner? && !Occurs(leftKey(left[i]), right)
      ensures join.Rows(Kept(left, right, i), right) == join.Rows(Kept(left, right, i + 1), right)
    {
      RowsOfKept(left, right, i);
      NoPartners(left[i], right);
    }

    /** The right input is used up, or its next key is above: the left row yields nothing. */
    lemma StartPassesLeft(left: seq<Row>, right: seq<Row>, i: nat, p: nat)
      requires lhsIsLeft
      requires Sorted(right, rightKey) && KeysFit(left, right) && join.jt.Inner?
      requires i < |left| && p <= |right| && (p < |right| ==> CompareKeys(left[i], right[p]) < 0)
      requires forall x :: 0 <= x < p ==> CompareKeys(left[i], right[x]) > 0
      ensures !Occurs(leftKey(left[i]), right)
      ensures join.Rows(Kept(left, right, i), right) == join.Rows(Kept(left, right, i + 1), right)
    {
      CollectsRun(left[i], right, p);
      CollectsNothing(left[i], right, p);
      NoKeyNoRows(left, right, i);
    }

    /** At the first equal keys the run collected is all of the left row's partners. */
    lemma StartFound(left: seq<Row>, right: seq<Row>, i: nat, p: nat)
      requires lhsIsLeft
      requires Sorted(left, leftKey) && Sorted(right, rightKey) && KeysFit(left, right) && join.jt.Inner?
      requires i < |left| && p < |right| && CompareKeys(left[i], right[p]) == 0
      requires forall x :: 0 <= x < p ==> CompareKeys(left[i], right[x]) > 0
      requires Stands(left, right, i, 0)
      ensures Start(left, right, i, p) == join.Rows(Kept(left, right, i), right)
    {
      var l := left[i];
      RunIsTake(l, right, p);
      SameTake(l, right, p);
      SameTake(l, right, 0);
      CollectsRun(l, right, 0);
      CollectsRun(l, right, p);
      var q := TakeTo(l, right, 0);
      assert [l][0] == l;
      PartnersInRun(l, right, p, q);
      PartnersInRun(l, right, SkipTo(l, right, 0, q), q);
      FromIsKept(left, right, i, 0);
    }

    /** Until the first equal keys are found, all right rows passed are below the left row. */
    lemma {:induction false} StartIsKept(left: seq<Row>, right: seq<Row>, i: nat, p: nat)
      requires lhsIsLeft
      requires Sorted(left, leftKey) && Sorted(right, rightKey) && KeysFit(left, right) && join.jt.Inner?
      requires i <= |left| && p <= |right| && (i > 0 ==> !Occurs(leftKey(left[i - 1]), right))
      requires i < |left| ==> forall x :: 0 <= x < p ==> CompareKeys(left[i], right[x]) > 0
      ensures Start(left, right, i, p) == join.Rows(Kept(left, right, i), right)
      decreases |left| - i, |right| - p
    {
      if i < |left| {
        if p == |right| || CompareKeys(left[i], right[p]) < 0 {
          PassLeft(left, right, i, p);
          StartIsKept(left, right, i + 1, p);
        } else if CompareKeys(left[i], right[p]) > 0 {
          StartIsKept(left, right, i, p + 1);
        } else {
          StartFound(left, right, i, p);
        }
      }
    }

    /** Passing a left row: the merge goes on with the next one, and all right rows passed are below it. */
    lemma PassLeft(left: seq<Row>, right: seq<Row>, i: nat, p: nat)
      requires lhsIsLeft
      requires Sorted(left, leftKey) && Sorted(right, rightKey) && KeysFit(left, right) && join.jt.Inner?
      requires i < |left| && p <= |right| && (p < |right| ==> CompareKeys(left[i], right[p]) < 0)
      requires forall x :: 0 <= x < p ==> CompareKeys(left[i], right[x]) > 0
      ensures Start(left, right, i, p) == Start(left, right, i + 1, p) && !Occurs(leftKey(left[i]), right)
      ensures join.Rows(Kept(left, right, i), right) == join.Rows(Kept(left, right, i + 1), right)
      ensures i + 1 < |left| ==> forall x :: 0 <= x < p ==> CompareKeys(left[i + 1], right[x]) > 0
    {
      StartPassesLeft(left, right, i, p);
      if i + 1 < |left| { StillBelow(left, right, i, p); }
    }

    lemma StillBelow(left: seq<Row>, right: seq<Row>, i: nat, p: nat)
      requires lhsIsLeft
      requires Sorted(left, leftKey) && i + 1 < |left| && p <= |right|
      requires forall x :: 0 <= x < p ==> CompareKeys(left[i], right[x]) > 0
      ensures forall x :: 0 <= x < p ==> CompareKeys(left[i + 1], right[x]) > 0
    {
      forall x | 0 <= x < p ensures CompareKeys(left[i + 1], right[x]) > 0 {
        var a, b, r := leftKey(left[i]), leftKey(left[i + 1]), rightKey(right[x]);
        CmpOrder(r, a, b);
        CmpOrder(a, r, b);
        CmpOrder(b, r, a);
      }
    }

    /** In a sorted input the run of equal keys ends where the first larger key is. */
    lemma {:induction false} RunIsTake(l: Row, right: seq<Row>, p: nat)
      requires lhsIsLeft
      requires Sorted(right, rightKey) && p < |right| && CompareKeys(l, right[p]) == 0
      ensures RunTo(l, right, p) == TakeTo(l, right, p)
      decreases |right| - p
    {
      if p + 1 < |right| {
        var k, a, b := leftKey(l), rightKey(right[p]), rightKey(right[p + 1]);
        CmpOrder(k, a, b);
        if Cmp(k, b) == 0 { RunIsTake(l, right, p + 1); }
      }
    }

    // ---- when nothing is lost ------------------------------------------------------

    /** Lost rows cost exactly their partners. */
    lemma {:induction false} KeptRows(left: seq<Row>, right: seq<Row>, i: nat)
      requires join.jt.Inner? && i <= |left|
      ensures |join.Rows(Kept(left, right, i), right)| <= |join.Rows(left[i..], right)|
      ensures LossIsFree(left, right, i) ==> join.Rows(Kept(left, right, i), right) == join.Rows(left[i..], right)
      ensures |join.Rows(Kept(left, right, i), right)| == |join.Rows(left[i..], right)| ==> LossIsFree(left, right, i)
      decreases |left| - i
    {
      if i < |left| {
        KeptRows(left, right, i + 1);
        RowsOfKept(left, right, i);
        LossSplits(left, right, i);
        RowsFrom(left, right, i);
      }
    }

    /** The rows lost from `i` on have no partners. */
    ghost predicate LossIsFree(left: seq<Row>, right: seq<Row>, i: nat) {
      forall x :: i <= x < |left| && Lost(left, right, x) ==> join.Partners(left[x], right) == []
    }

    lemma LossSplits(left: seq<Row>, right: seq<Row>, i: nat)
      requires i < |left|
      ensures LossIsFree(left, right, i) <==>
              (Lost(left, right, i) ==> join.Partners(left[i], right) == []) && LossIsFree(left, right, i + 1)
    {
    }

    lemma RowsFrom(left: seq<Row>, right: seq<Row>, i: nat)
      requires i < |left| && join.jt.Inner?
      ensures join.Rows(left[i..], right) == join.Partners(left[i], right) + join.Rows(left[i + 1..], right)
      ensures [] + join.Rows(left[i + 1..], right) == join.Rows(left[i + 1..], right)
    {
      assert left[i..][0] == left[i] && left[i..][1..] == left[i + 1..];
    }

    /** The merge yields the join, in its order, exactly when no lost row has a partner. */
    lemma MergeIsJoinIff(left: seq<Row>, right: seq<Row>)
      requires lhsIsLeft
      requires Sorted(left, leftKey) && Sorted(right, rightKey) && KeysFit(left, right) && join.jt.Inner?
      ensures Start(left, right, 0, 0) == join.Rows(Kept(left, right, 0), right)
      ensures multiset(Start(left, right, 0, 0)) == multiset(join.Rows(left, right)) <==>
              Start(left, right, 0, 0) == join.Rows(left, right)
      ensures Start(left, right, 0, 0) == join.Rows(left, right) <==> LossIsFree(left, right, 0)
    {
      StartIsKept(left, right, 0, 0);
      KeptRows(left, right, 0);
      assert left[0..] == left;
      if multiset(Start(left, right, 0, 0)) == multiset(join.Rows(left, right)) {
        assert |multiset(Start(left, right, 0, 0))| == |multiset(join.Rows(left, right))|;
      }
    }

    /** Two neighbouring left rows share a key that occurs on the right. */
    ghost predicate SharedKey(left: seq<Row>, right: seq<Row>) {
      exists i: nat :: SharedAt(left, right, i)
    }

    ghost predicate SharedAt(left: seq<Row>, right: seq<Row>, i: nat) {
      0 < i < |left| && leftKey(left[i - 1]) == leftKey(left[i]) && Occurs(leftKey(left[i]), right)
    }

    /** Without such neighbours nothing is lost, whatever else the condition demands. */
    lemma NothingShared(left: seq<Row>, right: seq<Row>)
      requires lhsIsLeft
      requires Sorted(left, leftKey) && Sorted(right, rightKey) && KeysFit(left, right) && join.jt.Inner?
      requires !SharedKey(left, right)
      ensures Start(left, right, 0, 0) == join.Rows(left, right)
    {
      forall x | 0 <= x < |left| ensures !Lost(left, right, x) {
        assert !SharedAt(left, right, x);
      }
      MergeIsJoinIff(left, right);
    }

    /** The condition is nothing but the equality of the keys. */
    ghost predicate MatchesAreKeys(left: seq<Row>, right: seq<Row>) {
      forall i, j :: 0 <= i < |left| && 0 <= j < |right| ==>
                       (join.matches(left[i], right[j]) <==> CompareKeys(left[i], right[j]) == 0)
    }

    /** Of two neighbours sharing a key one is lost, and it has a partner. */
    lemma SharedCosts(left: seq<Row>, right: seq<Row>, i: nat)
      requires MatchesAreKeys(left, right) && SharedAt(left, right, i)
      ensures !LossIsFree(left, right, 0)
    {
      var x := if Lost(left, right, i) then i else i - 1;
      assert Lost(left, right, x) && Occurs(leftKey(left[x]), right);
      var y :| 0 <= y < |right| && Cmp(leftKey(left[x]), rightKey(right[y])) == 0;
      CmpOrder(leftKey(left[x]), rightKey(right[y]), leftKey(left[x]));
      assert CompareKeys(left[x], right[y]) == 0;
      HasPartner(left[x], right, y);
    }

    /** For a pure equi-join the merge is right exactly when no such neighbours exist. */
    lemma EquiMergeIff(left: seq<Row>, right: seq<Row>)
      requires lhsIsLeft
      requires Sorted(left, leftKey) && Sorted(right, rightKey) && MatchesAreKeys(left, right) && join.jt.Inner?
      ensures Start(left, right, 0, 0) == join.Rows(left, right) <==> !SharedKey(left, right)
    {
      assert KeysFit(left, right);
      if SharedKey(left, right) {
        var i: nat :| SharedAt(left, right, i);
        SharedCosts(left, right, i);
        MergeIsJoinIff(left, right);
      } else {
        NothingShared(left, right);
      }
    }

    lemma {:induction false} HasPartner(l: Row, right: seq<Row>, y: nat)
      requires y < |right| && join.matches(l, right[y])
      ensures join.Partners(l, right) != []
    {
      if y > 0 { HasPartner(l, right[1..], y - 1); }
    }
  }
}
