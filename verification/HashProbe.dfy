/** What probing a hash table yields, and why it is the relational join whatever the order
    of the entries in a bucket. */
module HashProbe {
  import opened Conditions
  import opened JoinSpec

  /** A hash key is the byte string built from the join columns. */
  type Key = seq<int>

  /** For each key the build-side row numbers stored under it, in some order. */
  type Table = map<Key, seq<nat>>

  function Bucket(t: Table, k: Key): seq<nat> {
    if k in t then t[k] else []
  }

  /** A hash join: the join, and the key each side's rows get. */
  datatype Hashing = Hashing(join: Join, leftKey: Row -> Key, rightKey: Row -> Key) {

    /** Rows that match have the same key; rows with the same key need not match. */
    ghost predicate KeysFit(left: seq<Row>, right: seq<Row>) {
      forall i, j :: 0 <= i < |left| && 0 <= j < |right| && join.matches(left[i], right[j]) ==>
                       leftKey(left[i]) == rightKey(right[j])
    }

    /** The joined rows of right row `r` with the listed build rows. */
    function Picked(build: seq<Row>, r: Row, ids: seq<nat>): seq<Row> {
      if ids == [] then []
      else (if ids[0] < |build| && join.matches(build[ids[0]], r) then [build[ids[0]] + r] else []) + Picked(build, r, ids[1..])
    }

    function Probe(build: seq<Row>, t: Table, rest: seq<Row>): seq<Row> {
      if rest == [] then [] else Picked(build, rest[0], Bucket(t, rightKey(rest[0]))) + Probe(build, t, rest[1..])
    }

    /** The matched flags after the listed build rows have met right row `r`. */
    function Mark(build: seq<Row>, r: Row, ids: seq<nat>, matched: seq<bool>): (m: seq<bool>)
      ensures |m| == |matched|
    {
      if ids == [] then matched
      else
        var i := ids[0];
        Mark(build, r, ids[1..], if i < |build| && i < |matched| && join.matches(build[i], r) then matched[i := true] else matched)
    }

    function MarkAll(build: seq<Row>, t: Table, rest: seq<Row>, matched: seq<bool>): (m: seq<bool>)
      ensures |m| == |matched|
    {
      if rest == [] then matched
      else MarkAll(build, t, rest[1..], Mark(build, rest[0], Bucket(t, rightKey(rest[0])), matched))
    }

    /** The padded build rows from row `from` on that are not marked. */
    function NullRows(build: seq<Row>, matched: seq<bool>, from: nat): seq<Row>
      decreases |build| - from
    {
      if from >= |build| || from >= |matched| then []
      else (if matched[from] then [] else [build[from] + join.pad]) + NullRows(build, matched, from + 1)
    }

    /** Everything still due in the probe phase: the rest of the current bucket, the right rows
        to come, and in an outer join the build rows that nothing marks. */
    function ProbeDue(build: seq<Row>, t: Table, r: Row, ids: seq<nat>, rest: seq<Row>, matched: seq<bool>): seq<Row> {
      Picked(build, r, ids) + RestDue(build, t, rest, Mark(build, r, ids, matched))
    }

    function RestDue(build: seq<Row>, t: Table, rest: seq<Row>, matched: seq<bool>): seq<Row> {
      Probe(build, t, rest) + if join.jt.LeftOuter? then NullRows(build, MarkAll(build, t, rest, matched), 0) else []
    }

    lemma PassEntry(build: seq<Row>, t: Table, r: Row, ids: seq<nat>, rest: seq<Row>, matched: seq<bool>)
      requires ids != [] && ids[0] < |build| == |matched|
      ensures ProbeDue(build, t, r, ids, rest, matched) ==
              if join.matches(build[ids[0]], r)
              then [build[ids[0]] + r] + ProbeDue(build, t, r, ids[1..], rest, matched[ids[0] := true])
              else ProbeDue(build, t, r, ids[1..], rest, matched)
    {
      var b := build[ids[0]];
      if join.matches(b, r) {
        var a, c := Picked(build, r, ids[1..]), RestDue(build, t, rest, Mark(build, r, ids, matched));
        assert ([b + r] + a) + c == [b + r] + (a + c);
      } else {
        assert [] + Picked(build, r, ids[1..]) == Picked(build, r, ids[1..]);
      }
    }

    lemma BucketDone(build: seq<Row>, t: Table, r: Row, rest: seq<Row>, matched: seq<bool>)
      ensures ProbeDue(build, t, r, [], rest, matched) == RestDue(build, t, rest, matched)
    {
      assert [] + RestDue(build, t, rest, matched) == RestDue(build, t, rest, matched);
    }

    lemma NextBucket(build: seq<Row>, t: Table, rest: seq<Row>, matched: seq<bool>)
      requires rest != []
      ensures RestDue(build, t, rest, matched) ==
              ProbeDue(build, t, rest[0], Bucket(t, rightKey(rest[0])), rest[1..], matched)
    {
      var ids := Bucket(t, rightKey(rest[0]));
      var a, b := Picked(build, rest[0], ids), Probe(build, t, rest[1..]);
      var c := if join.jt.LeftOuter? then NullRows(build, MarkAll(build, t, rest, matched), 0) else [];
      assert (a + b) + c == a + (b + c);
    }

    // ---- the build phase --------------------------------------------------

    /** The table holds each build row exactly once, under its key. */
    ghost predicate TableOk(build: seq<Row>, t: Table) {
      && (forall k, x :: k in t && 0 <= x < |t[k]| ==> t[k][x] < |build| && leftKey(build[t[k][x]]) == k)
      && (forall k :: k in t ==> Distinct(t[k]))
      && (forall i :: 0 <= i < |build| ==> i in Bucket(t, leftKey(build[i])))
    }

    static ghost predicate Distinct(s: seq<nat>) {
      forall x, y :: 0 <= x < y < |s| ==> s[x] != s[y]
    }

    // ---- order in a bucket does not matter ---------------------------------

    static function Without(s: seq<nat>, p: nat): seq<nat>
      requires p < |s|
    {
      s[..p] + s[p + 1..]
    }

    lemma {:induction false} PickedAppend(build: seq<Row>, r: Row, a: seq<nat>, b: seq<nat>)
      ensures Picked(build, r, a + b) == Picked(build, r, a) + Picked(build, r, b)
      decreases |a|
    {
      if a == [] {
        assert a + b == b;
      } else {
        assert (a + b)[1..] == a[1..] + b && (a + b)[0] == a[0];
        PickedAppend(build, r, a[1..], b);
      }
    }

    predicate Hit(build: seq<Row>, r: Row, i: nat) {
      i < |build| && join.matches(build[i], r)
    }

    lemma {:induction false} PickedNothing(build: seq<Row>, r: Row, ids: seq<nat>)
      requires forall i :: i in ids ==> !Hit(build, r, i)
      ensures Picked(build, r, ids) == []
      decreases |ids|
    {
      if ids != [] {
        assert ids[0] in ids && !Hit(build, r, ids[0]);
        PickedNothing(build, r, ids[1..]);
      }
    }

    /** Taking one matching row out of a list takes its joined row out of the result. */
    lemma PickedWithout(build: seq<Row>, r: Row, ids: seq<nat>, p: nat)
      requires p < |ids| && Hit(build, r, ids[p])
      ensures multiset(Picked(build, r, ids)) == multiset{build[ids[p]] + r} + multiset(Picked(build, r, Without(ids, p)))
    {
      var a, x, b := ids[..p], [ids[p]], ids[p + 1..];
      assert ids == a + (x + b);
      PickedAppend(build, r, a, x + b);
      PickedAppend(build, r, x, b);
      PickedAppend(build, r, a, b);
      assert x[1..] == [];
      assert Picked(build, r, x) == [build[ids[p]] + r];
    }

    /** Two lists without repetition that hold the same matching rows yield the same bag. */
    lemma {:induction false} PickedPermutation(build: seq<Row>, r: Row, a: seq<nat>, b: seq<nat>)
      requires Distinct(a) && Distinct(b)
      requires forall i :: Hit(build, r, i) ==> (i in a <==> i in b)
      ensures multiset(Picked(build, r, a)) == multiset(Picked(build, r, b))
      decreases |a|
    {
      if a == [] {
        PickedNothing(build, r, b);
      } else {
        var x, rest := a[0], a[1..];
        forall i | i in rest ensures i in a && i != x { }
        if Hit(build, r, x) {
          assert x in a;
          var p :| 0 <= p < |b| && b[p] == x;
          PickedWithout(build, r, b, p);
          WithoutElements(b, p);
          forall i | Hit(build, r, i) ensures i in rest <==> i in Without(b, p) {
            assert i in a <==> i == x || i in rest;
          }
          PickedPermutation(build, r, rest, Without(b, p));
        } else {
          forall i | Hit(build, r, i) ensures i in rest <==> i in b {
            assert i in a <==> i == x || i in rest;
          }
          PickedPermutation(build, r, rest, b);
        }
      }
    }

    static lemma WithoutElements(s: seq<nat>, p: nat)
      requires p < |s| && Distinct(s)
      ensures Distinct(Without(s, p))
      ensures forall i :: i in Without(s, p) <==> i in s && i != s[p]
    {
      var w := Without(s, p);
      forall i | i in s && i != s[p] ensures i in w {
        var x :| 0 <= x < |s| && s[x] == i;
        assert w[if x < p then x else x - 1] == i;
      }
      forall i | i in w ensures i in s && i != s[p] {
        var x :| 0 <= x < |w| && w[x] == i;
        assert s[if x < p then x else x + 1] == i;
      }
    }

    // ---- from bucket order to the relational join --------------------------

    /** The joined rows of one right row, in build order. */
    function Column(build: seq<Row>, r: Row): seq<Row> {
      if build == [] then [] else (if join.matches(build[0], r) then [build[0] + r] else []) + Column(build[1..], r)
    }

    function Columns(build: seq<Row>, right: seq<Row>): seq<Row> {
      if right == [] then [] else Column(build, right[0]) + Columns(build, right[1..])
    }

    static function Upwards(from: nat, n: nat): seq<nat>
      requires from <= n
    {
      seq(n - from, j requires 0 <= j => from + j)
    }

    lemma {:induction false} PickedUpwards(build: seq<Row>, r: Row, from: nat)
      requires from <= |build|
      ensures Picked(build, r, Upwards(from, |build|)) == Column(build[from..], r)
      decreases |build| - from
    {
      if from < |build| {
        PickedUpwards(build, r, from + 1);
        assert Upwards(from, |build|)[1..] == Upwards(from + 1, |build|);
        assert build[from..][1..] == build[from + 1..];
      }
    }

    lemma BucketIsColumn(build: seq<Row>, t: Table, r: Row)
      requires TableOk(build, t) && KeysFit(build, [r])
      ensures multiset(Picked(build, r, Bucket(t, rightKey(r)))) == multiset(Column(build, r))
    {
      var ids, all := Bucket(t, rightKey(r)), Upwards(0, |build|);
      PickedUpwards(build, r, 0);
      assert build[0..] == build;
      forall i: nat | Hit(build, r, i) ensures i in ids && i in all {
        assert [r][0] == r;
        assert join.matches(build[i], [r][0]);
        assert all[i] == i;
      }
      PickedPermutation(build, r, ids, all);
    }

    lemma {:induction false} ProbeIsColumns(build: seq<Row>, t: Table, right: seq<Row>)
      requires TableOk(build, t) && KeysFit(build, right)
      ensures multiset(Probe(build, t, right)) == multiset(Columns(build, right))
    {
      if right != [] {
        BucketIsColumn(build, t, right[0]);
        ProbeIsColumns(build, t, right[1..]);
      }
    }

    /** The matching pairs, left row by left row. */
    function Inner(left: seq<Row>, right: seq<Row>): seq<Row> {
      if left == [] then [] else join.Partners(left[0], right) + Inner(left[1..], right)
    }

    lemma {:induction false} OneRowFirst(l: Row, build: seq<Row>, right: seq<Row>)
      ensures multiset(Columns([l] + build, right)) == multiset(join.Partners(l, right)) + multiset(Columns(build, right))
      decreases |right|
    {
      if right != [] {
        OneRowFirst(l, build, right[1..]);
        assert ([l] + build)[1..] == build;
      }
    }

    /** Listing the matching pairs by right row or by left row gives the same bag. */
    lemma {:induction false} ColumnsAreInner(build: seq<Row>, right: seq<Row>)
      ensures multiset(Columns(build, right)) == multiset(Inner(build, right))
      decreases |build|
    {
      if build == [] {
        NoColumns(right);
      } else {
        ColumnsAreInner(build[1..], right);
        OneRowFirst(build[0], build[1..], right);
        assert [build[0]] + build[1..] == build;
      }
    }

    lemma {:induction false} NoColumns(right: seq<Row>)
      ensures Columns([], right) == []
    {
      if right != [] { NoColumns(right[1..]); }
    }

    // ---- unmatched rows -----------------------------------------------------

    /** The padded left rows that have no partner. */
    function Pads(left: seq<Row>, right: seq<Row>): seq<Row> {
      if left == [] then []
      else (if join.Partners(left[0], right) == [] then [left[0] + join.pad] else []) + Pads(left[1..], right)
    }

    lemma {:induction false} RowsSplit(left: seq<Row>, right: seq<Row>)
      ensures multiset(join.Rows(left, right)) ==
              multiset(Inner(left, right)) + if join.jt.LeftOuter? then multiset(Pads(left, right)) else multiset{}
    {
      if left != [] { RowsSplit(left[1..], right); }
    }

    lemma {:induction false} MarkFlags(build: seq<Row>, r: Row, ids: seq<nat>, matched: seq<bool>, i: nat)
      requires i < |build| == |matched|
      ensures Mark(build, r, ids, matched)[i] <==> matched[i] || (i in ids && join.matches(build[i], r))
      decreases |ids|
    {
      if ids != [] {
        var x := ids[0];
        MarkFlags(build, r, ids[1..], if x < |build| && x < |matched| && join.matches(build[x], r) then matched[x := true] else matched, i);
        assert i in ids <==> i == x || i in ids[1..];
      }
    }

    lemma {:induction false} MarkAllFlags(build: seq<Row>, t: Table, right: seq<Row>, matched: seq<bool>, i: nat)
      requires TableOk(build, t) && KeysFit(build, right) && i < |build| == |matched|
      ensures MarkAll(build, t, right, matched)[i] <==> matched[i] || join.Partners(build[i], right) != []
      decreases |right|
    {
      if right != [] {
        var r := right[0];
        var ids := Bucket(t, rightKey(r));
        MarkFlags(build, r, ids, matched, i);
        MarkAllFlags(build, t, right[1..], Mark(build, r, ids, matched), i);
        if join.matches(build[i], r) { assert leftKey(build[i]) == rightKey(r); }
      }
    }

    lemma {:induction false} NullRowsArePads(build: seq<Row>, matched: seq<bool>, right: seq<Row>, from: nat)
      requires |build| == |matched| && from <= |build|
      requires forall i :: 0 <= i < |build| ==> (matched[i] <==> join.Partners(build[i], right) != [])
      ensures NullRows(build, matched, from) == Pads(build[from..], right)
      decreases |build| - from
    {
      if from < |build| {
        NullRowsArePads(build, matched, right, from + 1);
        assert build[from..][1..] == build[from + 1..];
      }
    }

    // ---- the result -----------------------------------------------------------

    /** With nothing built, nothing is due. */
    lemma {:induction false} NothingBuilt(t: Table, right: seq<Row>)
      requires TableOk([], t)
      ensures RestDue([], t, right, []) == []
      decreases |right|
    {
      if right != [] {
        NothingBuilt(t, right[1..]);
        NothingPicked(right[0], Bucket(t, rightKey(right[0])));
      }
    }

    lemma {:induction false} NothingPicked(r: Row, ids: seq<nat>)
      ensures Picked([], r, ids) == []
      decreases |ids|
    {
      if ids != [] { NothingPicked(r, ids[1..]); }
    }

    /** Whatever the order in the buckets, a build and a full probe give the relational join. */
    lemma HashJoinIsJoin(build: seq<Row>, t: Table, right: seq<Row>)
      requires TableOk(build, t) && KeysFit(build, right)
      ensures multiset(RestDue(build, t, right, seq(|build|, _ => false))) == multiset(join.Rows(build, right))
    {
      var none := seq(|build|, _ => false);
      ProbeIsColumns(build, t, right);
      ColumnsAreInner(build, right);
      RowsSplit(build, right);
      if join.jt.LeftOuter? {
        forall i | 0 <= i < |build|
          ensures MarkAll(build, t, right, none)[i] <==> join.Partners(build[i], right) != []
        {
          MarkAllFlags(build, t, right, none, i);
        }
        NullRowsArePads(build, MarkAll(build, t, right, none), right, 0);
        assert build[0..] == build;
      }
    }
  }
}
