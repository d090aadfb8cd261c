/** The hash join executor: it builds a table on the left input, probes it with the right one,
    and in an outer join then emits the build rows that never matched. */
module HashJoin {
  import opened Conditions
  import opened JoinSpec
  import opened HashProbe

  datatype Phase = PhaseProbe | PhaseNullRight

  class HashJoinExecutor {
    const hashing: Hashing
    const left: Cursor
    const right: Cursor
    var isEnd: bool
    var buildRecords: seq<Row>
    var buildMatched: seq<bool>
    var hashTable: Table
    var rightRecord: Row
    var curRange: seq<nat>
    var curMatchBuild: nat
    var rightExhausted: bool
    var phase: Phase
    var nullEmitIdx: nat

    constructor (hashing: Hashing, left: Cursor, right: Cursor)
      requires left != right
      ensures this.hashing == hashing && this.left == left && this.right == right && isEnd
    {
      this.hashing, this.left, this.right := hashing, left, right;
      isEnd, rightExhausted, phase := true, false, PhaseProbe;
      buildRecords, buildMatched, hashTable := [], [], map[];
      rightRecord, curRange, curMatchBuild, nullEmitIdx := map[], [], 0, 0;
    }

    /** The table is built and the right cursor is within its input. */
    ghost predicate Built()
      reads this, left, right
    {
      && left != right
      && |buildMatched| == |buildRecords|
      && (forall k :: k in hashTable ==> RowNumbers(hashTable[k], |buildRecords|))
      && right.pos <= |right.rows|
    }

    ghost predicate RangeOk()
      reads this
    {
      RowNumbers(curRange, |buildRecords|)
    }

    static ghost predicate RowNumbers(ids: seq<nat>, n: nat) {
      forall x :: 0 <= x < |ids| ==> ids[x] < n
    }

    /** First right row not yet probed. */
    ghost function NextRight(): (n: nat)
      requires right.pos <= |right.rows|
      reads right
      ensures n <= |right.rows|
    {
      if right.pos < |right.rows| then right.pos + 1 else right.pos
    }

    /** The output due from the rest of the current bucket on. */
    ghost function DueInBucket(): seq<Row>
      requires right.pos <= |right.rows|
      reads this, right
    {
      hashing.ProbeDue(buildRecords, hashTable, rightRecord, curRange, right.rows[NextRight()..], buildMatched)
    }

    /** The output due from the next right row on. */
    ghost function DueAfter(): seq<Row>
      requires right.pos <= |right.rows|
      reads this, right
    {
      hashing.RestDue(buildRecords, hashTable, right.rows[NextRight()..], buildMatched)
    }

    ghost function NullsFrom(i: nat): seq<Row>
      reads this
    {
      hashing.NullRows(buildRecords, buildMatched, i)
    }

    ghost predicate Valid()
      reads this, left, right
    {
      left != right &&
      (!isEnd ==>
         && Built()
         && curMatchBuild < |buildRecords|
         && (phase.PhaseProbe? ==> right.pos < |right.rows| && rightRecord == right.rows[right.pos] && RangeOk() && !rightExhausted)
         && (phase.PhaseNullRight? ==> hashing.join.jt.LeftOuter? && nullEmitIdx <= |buildRecords|))
    }

    /** The rows still to be yielded, the current one first. */
    ghost function Remaining(): seq<Row>
      requires Valid()
      reads this, left, right
    {
      if isEnd then []
      else if phase.PhaseProbe? then [buildRecords[curMatchBuild] + rightRecord] + DueInBucket()
      else [buildRecords[curMatchBuild] + hashing.join.pad] + NullsFrom(nullEmitIdx)
    }

    // ---- probing ------------------------------------------------------------

    /** Walks the current bucket to the next row that satisfies all conditions. */
    method TryProbeNext() returns (found: bool)
      requires Built() && RangeOk()
      modifies `curRange, `buildMatched, `curMatchBuild
      ensures Built() && RangeOk()
      ensures found ==> curMatchBuild < |buildRecords| &&
                        [buildRecords[curMatchBuild] + rightRecord] + DueInBucket() == old(DueInBucket())
      ensures !found ==> DueAfter() == old(DueInBucket())
    {
      ghost var rest := right.rows[NextRight()..];
      while curRange != []
        invariant Built() && RangeOk()
        invariant DueInBucket() == old(DueInBucket())
        decreases |curRange|
      {
        var bidx := curRange[0];
        hashing.PassEntry(buildRecords, hashTable, rightRecord, curRange, rest, buildMatched);
        curRange := curRange[1..];
        if hashing.join.matches(buildRecords[bidx], rightRecord) {
          buildMatched := buildMatched[bidx := true];
          curMatchBuild := bidx;
          return true;
        }
      }
      hashing.BucketDone(buildRecords, hashTable, rightRecord, rest, buildMatched);
      found := false;
    }

    /** The output due when the right row under the cursor has not been probed yet. */
    ghost function DueHere(): seq<Row>
      requires right.pos <= |right.rows|
      reads this, right
    {
      hashing.RestDue(buildRecords, hashTable, right.rows[right.pos..], buildMatched)
    }

    /** Fetches the bucket of the right row under the cursor. */
    method FetchBucket()
      requires Built() && right.pos < |right.rows|
      modifies `rightRecord, `curRange
      ensures Built() && RangeOk() && rightRecord == right.rows[right.pos] && DueInBucket() == old(DueHere())
    {
      rightRecord := right.Next();
      var key := hashing.rightKey(rightRecord);
      curRange := Bucket(hashTable, key);
      hashing.NextBucket(buildRecords, hashTable, right.rows[right.pos..], buildMatched);
      assert right.rows[right.pos..][1..] == right.rows[right.pos + 1..];
    }

    /** Fetches the bucket of the right row under the cursor and probes it. */
    method ProbeRight() returns (found: bool)
      requires Built() && right.pos < |right.rows|
      modifies `rightRecord, `curRange, `buildMatched, `curMatchBuild
      ensures Built() && RangeOk() && rightRecord == right.rows[right.pos]
      ensures found ==> (curMatchBuild < |buildRecords| &&
                         [buildRecords[curMatchBuild] + rightRecord] + DueInBucket() == old(DueHere()))
      ensures !found ==> DueAfter() == old(DueHere())
    {
      FetchBucket();
      found := TryProbeNext();
    }

    /** Moves on to the next right row and probes it, unless the input ends. */
    method StepRight() returns (more: bool, found: bool)
      requires Built()
      modifies right, `rightRecord, `curRange, `buildMatched, `curMatchBuild
      ensures Built() && right.pos == old(NextRight()) && more == !right.IsEnd() && (found ==> more)
      ensures more ==> RangeOk() && rightRecord == right.rows[right.pos]
      ensures found ==> (curMatchBuild < |buildRecords| &&
                         [buildRecords[curMatchBuild] + rightRecord] + DueInBucket() == old(DueAfter()))
      ensures !found ==> DueAfter() == old(DueAfter())
    {
      ghost var n := NextRight();
      right.NextTuple();
      assert right.pos == n && Built();
      more, found := !right.IsEnd(), false;
      if more {
        found := ProbeRight();
      }
    }

    /** Probes right row after right row until one matches or the input ends. */
    method AdvanceRight() returns (found: bool)
      requires Built()
      modifies right, `rightRecord, `curRange, `buildMatched, `curMatchBuild, `rightExhausted
      ensures Built() && rightExhausted == (old(rightExhausted) || !found)
      ensures found ==> (right.pos < |right.rows| && rightRecord == right.rows[right.pos] && RangeOk() &&
                         curMatchBuild < |buildRecords| &&
                         [buildRecords[curMatchBuild] + rightRecord] + DueInBucket() == old(DueAfter()))
      ensures !found ==> right.pos == |right.rows| && DueAfter() == old(DueAfter())
    {
      ghost var due := DueAfter();
      while true
        invariant Built() && rightExhausted == old(rightExhausted) && DueAfter() == due
        decreases |right.rows| - right.pos
      {
        var more;
        more, found := StepRight();
        if found { return; }
        if !more {
          rightExhausted := true;
          return;
        }
      }
    }

    // ---- unmatched build rows -------------------------------------------------

    /** Finds the next build row that is not marked, and marks it. */
    method EmitNullRight() returns (found: bool)
      requires |buildMatched| == |buildRecords| && nullEmitIdx <= |buildRecords|
      modifies `buildMatched, `curMatchBuild, `nullEmitIdx
      ensures |buildMatched| == |buildRecords| && nullEmitIdx <= |buildRecords|
      ensures found ==> curMatchBuild < |buildRecords| &&
                        [buildRecords[curMatchBuild] + hashing.join.pad] + NullsFrom(nullEmitIdx) == old(NullsFrom(nullEmitIdx))
      ensures !found ==> old(NullsFrom(nullEmitIdx)) == []
    {
      while nullEmitIdx < |buildMatched|
        invariant |buildMatched| == |buildRecords| && nullEmitIdx <= |buildRecords|
        invariant buildMatched == old(buildMatched)
        invariant NullsFrom(nullEmitIdx) == old(NullsFrom(nullEmitIdx))
        decreases |buildMatched| - nullEmitIdx
      {
        if !buildMatched[nullEmitIdx] {
          NullsIgnoreEarlier(buildMatched[nullEmitIdx := true], buildMatched, nullEmitIdx + 1);
          buildMatched := buildMatched[nullEmitIdx := true];
          curMatchBuild := nullEmitIdx;
          nullEmitIdx := nullEmitIdx + 1;
          return true;
        }
        nullEmitIdx := nullEmitIdx + 1;
      }
      found := false;
    }

    lemma {:induction false} NullsIgnoreEarlier(a: seq<bool>, b: seq<bool>, from: nat)
      requires |a| == |b| && forall i :: from <= i < |a| ==> a[i] == b[i]
      ensures hashing.NullRows(buildRecords, a, from) == hashing.NullRows(buildRecords, b, from)
      decreases |buildRecords| - from
    {
      if from < |buildRecords| && from < |a| {
        NullsIgnoreEarlier(a, b, from + 1);
      }
    }

    /** The probe is over: an outer join goes on with the unmatched build rows. */
    method FinishProbe()
      requires Built() && right.pos == |right.rows|
      modifies `phase, `nullEmitIdx, `buildMatched, `curMatchBuild, `isEnd
      ensures Valid() && Remaining() == old(DueAfter())
    {
      assert right.rows[right.pos..] == [];
      if hashing.join.jt.LeftOuter? {
        phase := PhaseNullRight;
        nullEmitIdx := 0;
        assert DueAfter() == [] + NullsFrom(0);
        var found := EmitNullRight();
        isEnd := !found;
      } else {
        isEnd := true;
      }
    }

    // ---- building -------------------------------------------------------------

    /** Stores a build row number under its key, anywhere in the bucket: a hash table promises
        no order among equal keys. */
    method Emplace(key: Key, idx: nat)
      requires idx < |buildRecords| && hashing.TableOk(buildRecords[..idx], hashTable) && hashing.leftKey(buildRecords[idx]) == key
      modifies `hashTable
      ensures hashing.TableOk(buildRecords[..idx + 1], hashTable)
    {
      var bucket := Bucket(hashTable, key);
      var p :| 0 <= p <= |bucket|;
      InsertedBucket(buildRecords, hashTable, key, idx, p);
      hashTable := hashTable[key := Inserted(hashTable, key, idx, p)];
    }

    function Inserted(t: Table, key: Key, idx: nat, p: nat): seq<nat>
      requires p <= |Bucket(t, key)|
    {
      Bucket(t, key)[..p] + [idx] + Bucket(t, key)[p..]
    }

    /** A bucket with one number more has the old ones, each once, and the new one. */
    static lemma InsertedElements(b: seq<nat>, idx: nat, p: nat)
      requires p <= |b| && Hashing.Distinct(b) && idx !in b
      ensures var b' := b[..p] + [idx] + b[p..]; Hashing.Distinct(b') && forall i :: i in b' <==> i in b || i == idx
    {
      var b' := b[..p] + [idx] + b[p..];
      assert forall x :: 0 <= x < |b'| ==> b'[x] == if x < p then b[x] else if x == p then idx else b[x - 1];
      assert b'[p] == idx;
      forall i | i in b ensures i in b' {
        var x :| 0 <= x < |b| && b[x] == i;
        assert b'[if x < p then x else x + 1] == i;
      }
    }

    lemma InsertedBucket(build: seq<Row>, t: Table, key: Key, idx: nat, p: nat)
      requires idx < |build| && hashing.TableOk(build[..idx], t) && hashing.leftKey(build[idx]) == key
      requires p <= |Bucket(t, key)|
      ensures hashing.TableOk(build[..idx + 1], t[key := Inserted(t, key, idx, p)])
    {
      var b, b' := Bucket(t, key), Inserted(t, key, idx, p);
      var t' := t[key := b'];
      var rows, rows' := build[..idx], build[..idx + 1];
      assert forall i :: 0 <= i < idx ==> rows[i] == rows'[i];
      assert forall x :: 0 <= x < |b| ==> b[x] < idx;
      InsertedElements(b, idx, p);
      forall x | 0 <= x < |b'| ensures b'[x] < |rows'| && hashing.leftKey(rows'[b'[x]]) == key {
        assert b'[x] in b';
      }
      forall i | 0 <= i < |rows'| ensures i in Bucket(t', hashing.leftKey(rows'[i])) {
        if i < idx { assert i in Bucket(t, hashing.leftKey(rows[i])); }
      }
    }

    /** One more build row, unmatched, in the table. */
    method AddBuild(rec: Row)
      requires hashing.TableOk(buildRecords, hashTable) && buildMatched == seq(|buildRecords|, _ => false)
      modifies `buildRecords, `buildMatched, `hashTable
      ensures buildRecords == old(buildRecords) + [rec] && buildMatched == seq(|buildRecords|, _ => false)
      ensures hashing.TableOk(buildRecords, hashTable)
    {
      var idx := |buildRecords|;
      assert (buildRecords + [rec])[..idx] == buildRecords;
      buildRecords := buildRecords + [rec];
      buildMatched := buildMatched + [false];
      Emplace(hashing.leftKey(rec), idx);
      assert buildRecords[..idx + 1] == buildRecords;
    }

    /** Reads the whole left input into the build rows and the table. */
    method Build()
      requires left != right
      modifies left, `buildRecords, `buildMatched, `hashTable
      ensures buildRecords == left.rows && hashing.TableOk(buildRecords, hashTable)
      ensures buildMatched == seq(|buildRecords|, _ => false)
    {
      hashTable := map[];
      buildRecords := [];
      buildMatched := [];
      left.BeginTuple();
      while !left.IsEnd()
        invariant left.pos <= |left.rows| && buildRecords == left.rows[..left.pos]
        invariant buildMatched == seq(|buildRecords|, _ => false)
        invariant hashing.TableOk(buildRecords, hashTable)
        decreases |left.rows| - left.pos
      {
        var rec := left.Next();
        assert left.rows[..left.pos] + [rec] == left.rows[..left.pos + 1];
        AddBuild(rec);
        left.NextTuple();
      }
      assert left.rows[..left.pos] == left.rows;
    }

    // ---- the iterator ---------------------------------------------------------

    /** What the phases of a join of the two inputs yield from the table as it is. */
    ghost function AllDue(): seq<Row>
      reads this, left, right
    {
      hashing.RestDue(left.rows, hashTable, right.rows, seq(|left.rows|, _ => false))
    }

    /** Restarts: the table holds the left input, and what is due is what the phases yield from it. */
    method Restart()
      requires left != right
      modifies this, left, right
      ensures Valid() && hashing.TableOk(left.rows, hashTable) && Remaining() == AllDue()
    {
      isEnd := true;
      phase := PhaseProbe;
      rightExhausted := false;
      curMatchBuild := 0;
      nullEmitIdx := 0;
      Build();
      if buildRecords == [] {
        hashing.NothingBuilt(hashTable, right.rows);
        return;
      }
      right.BeginTuple();
      assert right.rows[0..] == right.rows;
      Probe();
    }

    /** Restarts; where matching rows have the same key, what is due is, as a bag, the relational join
        of the two inputs. */
    method BeginTuple()
      requires left != right
      modifies this, left, right
      ensures Valid() && hashing.TableOk(left.rows, hashTable) && Remaining() == AllDue()
      ensures hashing.KeysFit(left.rows, right.rows) ==> multiset(Remaining()) == multiset(hashing.join.Rows(left.rows, right.rows))
    {
      Restart();
      if hashing.KeysFit(left.rows, right.rows) {
        hashing.HashJoinIsJoin(left.rows, hashTable, right.rows);
      }
    }

    /** The first probe of a scan of the right input. */
    method Probe()
      requires Built() && right.pos == 0 && phase.PhaseProbe? && !rightExhausted && isEnd
      modifies right, `rightRecord, `curRange, `buildMatched, `curMatchBuild, `rightExhausted, `phase, `nullEmitIdx, `isEnd
      ensures Valid() && Remaining() == old(DueHere())
    {
      var found := false;
      if !right.IsEnd() {
        found := ProbeRight();
      } else {
        rightExhausted := true;
      }
      if !found {
        found := AdvanceRight();
      }
      if found {
        isEnd := false;
      } else {
        FinishProbe();
      }
    }

    /** Drops the current row from what is due. */
    method NextTuple()
      requires Valid() && !isEnd
      modifies right, `rightRecord, `curRange, `buildMatched, `curMatchBuild, `rightExhausted, `phase, `nullEmitIdx, `isEnd
      ensures Valid() && Remaining() == old(Remaining())[1..]
    {
      if phase.PhaseProbe? {
        var found := false;
        if !rightExhausted {
          found := TryProbeNext();
        }
        if !found {
          found := AdvanceRight();
        }
        if !found {
          FinishProbe();
        }
      } else {
        var found := EmitNullRight();
        if !found { isEnd := true; }
      }
    }

    /** The current row: build row and right row, or build row and zeroed right columns. */
    method Next() returns (row: Row)
      requires Valid() && !isEnd
      ensures row == Remaining()[0]
    {
      row := buildRecords[curMatchBuild] + if phase.PhaseNullRight? then hashing.join.pad else rightRecord;
    }

    lemma TakeOne(out: seq<Row>, due: seq<Row>, row: Row, rest: seq<Row>)
      requires due != [] && row == due[0] && rest == due[1..]
      ensures (out + [row]) + rest == out + due
    {
    }

    /** The rest of an iteration yields what is due. */
    method DrainRest() returns (out: seq<Row>)
      requires Valid()
      modifies right, `rightRecord, `curRange, `buildMatched, `curMatchBuild, `rightExhausted, `phase, `nullEmitIdx, `isEnd
      ensures out == old(Remaining())
    {
      out := [];
      ghost var all := Remaining();
      while !isEnd
        invariant Valid() && out + Remaining() == all
        decreases |Remaining()|
      {
        ghost var due := Remaining();
        var row := Next();
        NextTuple();
        TakeOne(out, due, row, Remaining());
        out := out + [row];
      }
      assert out == all;
    }

    /** A full iteration yields what the phases do; where matching rows have the same key, that is the
        relational join, each joined row as often as it occurs there. */
    method Drain() returns (out: seq<Row>)
      requires left != right
      modifies this, left, right
      ensures hashing.TableOk(left.rows, hashTable) && out == AllDue()
      ensures hashing.KeysFit(left.rows, right.rows) ==> multiset(out) == multiset(hashing.join.Rows(left.rows, right.rows))
    {
      BeginTuple();
      out := DrainRest();
    }
  }
}
