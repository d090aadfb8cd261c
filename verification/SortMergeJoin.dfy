/** The sort-merge join executor for INNER joins, over two sorting children. */
module SortMergeJoin {
  import opened Conditions
  import opened JoinBags
  import opened JoinSpec
  import opened MergeSpec

  /** Reads all rows of its child and yields them in sorted order. The library sort is any
      function whose results are sorted permutations; it answers the same on the same rows. */
  class SortExecutor {
    const prev: Cursor
    const sort: seq<Row> -> seq<Row>
    var tuples: seq<Row>
    var currentIdx: nat

    constructor (prev: Cursor, sort: seq<Row> -> seq<Row>)
      ensures this.prev == prev && this.sort == sort && IsEnd()
    {
      this.prev, this.sort := prev, sort;
      tuples, currentIdx := [], 0;
    }

    /** What every iteration yields. */
    ghost function Rows(): seq<Row> {
      sort(prev.rows)
    }

    predicate IsEnd()
      reads this
    {
      currentIdx >= |tuples|
    }

    method BeginTuple()
      modifies this, prev
      ensures tuples == Rows() && currentIdx == 0
    {
      prev.BeginTuple();
      tuples := [];
      while !prev.IsEnd()
        invariant prev.pos <= |prev.rows| && tuples == prev.rows[..prev.pos]
        decreases |prev.rows| - prev.pos
      {
        tuples := tuples + [prev.Next()];
        prev.NextTuple();
      }
      assert prev.rows[..prev.pos] == prev.rows;
      tuples := sort(tuples);
      currentIdx := 0;
    }

    method NextTuple()
      modifies this
      ensures tuples == old(tuples) && currentIdx == old(currentIdx) + 1
    {
      currentIdx := currentIdx + 1;
    }

    function Next(): Row
      requires !IsEnd()
      reads this
    {
      tuples[currentIdx]
    }
  }

  class SortMergeJoinExecutor {
    const merging: Merging
    const left: SortExecutor
    const right: SortExecutor
    var isEnd: bool
    var leftRecord: Row
    var rightRecord: Row
    var rightMatches: seq<Row>
    var rightMatchPos: nat

    constructor (merging: Merging, left: SortExecutor, right: SortExecutor)
      requires left != right && left.prev != right.prev && merging.join.jt.Inner?
      ensures Ready() && this.merging == merging && this.left == left && this.right == right && isEnd
    {
      this.merging, this.left, this.right := merging, left, right;
      isEnd, leftRecord, rightRecord, rightMatches, rightMatchPos := true, map[], map[], [], 0;
    }

    ghost predicate Ready() {
      left != right && left.prev != right.prev && merging.join.jt.Inner?
    }

    /** A left row is current, its buffer is under way, and the right input stands somewhere. */
    ghost predicate OnLeft()
      reads this, left, right
    {
      && Ready()
      && left.tuples == left.Rows() && right.tuples == right.Rows()
      && left.currentIdx < |left.Rows()| && leftRecord == left.Rows()[left.currentIdx]
      && right.currentIdx <= |right.Rows()| && rightMatchPos <= |rightMatches|
    }

    /** The output due after the current row: the rest of the buffer, and the left rows to come. */
    ghost function DueAfter(): seq<Row>
      requires OnLeft()
      reads this, left, right
    {
      merging.join.Partners(leftRecord, rightMatches[rightMatchPos..]) +
      merging.From(left.Rows(), right.Rows(), left.currentIdx + 1, right.currentIdx)
    }

    ghost predicate Valid()
      reads this, left, right
    {
      Ready() && (!isEnd ==> OnLeft())
    }

    /** The rows still to be yielded, the current one first. */
    ghost function Remaining(): seq<Row>
      requires Valid()
      reads this, left, right
    {
      if isEnd then [] else [leftRecord + rightRecord] + DueAfter()
    }

    // ---- the buffer --------------------------------------------------------------

    /** Tests the next buffered row. */
    method TestNext(ghost due: seq<Row>) returns (found: bool)
      requires OnLeft() && DueAfter() == due && rightMatchPos < |rightMatches|
      modifies `rightRecord, `rightMatchPos
      ensures OnLeft() && rightMatchPos == old(rightMatchPos) + 1
      ensures found ==> [leftRecord + rightRecord] + DueAfter() == due
      ensures !found ==> DueAfter() == due
    {
      ghost var rest := rightMatches[rightMatchPos..];
      ghost var later := merging.From(left.Rows(), right.Rows(), left.currentIdx + 1, right.currentIdx);
      rightRecord := rightMatches[rightMatchPos];
      rightMatchPos := rightMatchPos + 1;
      found := merging.join.matches(leftRecord, rightRecord);
      assert rest[0] == rightRecord && rest[1..] == rightMatches[rightMatchPos..];
      Regroup(if found then [leftRecord + rightRecord] else [], merging.join.Partners(leftRecord, rest[1..]), later);
    }

    lemma Regroup(a: seq<Row>, b: seq<Row>, c: seq<Row>)
      ensures (a + b) + c == a + (b + c)
      ensures [] + c == c && [] + b == b
    {
    }

    /** Tests the buffered rows in order up to the first that passes. */
    method FirstPassing() returns (j: nat, found: bool)
      modifies `rightRecord
      ensures found ==> j < |rightMatches| && rightRecord == rightMatches[j] &&
                        merging.join.Partners(leftRecord, rightMatches) ==
                        [leftRecord + rightRecord] + merging.join.Partners(leftRecord, rightMatches[j + 1..])
      ensures !found ==> merging.join.Partners(leftRecord, rightMatches) == []
    {
      j := 0;
      assert rightMatches[0..] == rightMatches;
      while j < |rightMatches|
        invariant j <= |rightMatches|
        invariant merging.join.Partners(leftRecord, rightMatches[j..]) == merging.join.Partners(leftRecord, rightMatches)
      {
        rightRecord := rightMatches[j];
        assert rightMatches[j..][0] == rightRecord && rightMatches[j..][1..] == rightMatches[j + 1..];
        if merging.join.matches(leftRecord, rightRecord) { return j, true; }
        Regroup([], merging.join.Partners(leftRecord, rightMatches[j + 1..]), []);
        j := j + 1;
      }
      assert rightMatches[j..] == [];
      found := false;
    }

    /** Tests the buffer from its start; without a match the position stays there. */
    method TestAll(ghost due: seq<Row>) returns (found: bool)
      requires OnLeft() && DueAfter() == due && rightMatchPos == 0
      modifies `rightRecord, `rightMatchPos
      ensures OnLeft()
      ensures found ==> [leftRecord + rightRecord] + DueAfter() == due
      ensures !found ==> rightMatchPos == 0 && DueAfter() == due && merging.join.Partners(leftRecord, rightMatches) == []
    {
      assert rightMatches[0..] == rightMatches;
      ghost var later := merging.From(left.Rows(), right.Rows(), left.currentIdx + 1, right.currentIdx);
      var j;
      j, found := FirstPassing();
      if found {
        Regroup([leftRecord + rightRecord], merging.join.Partners(leftRecord, rightMatches[j + 1..]), later);
        rightMatchPos := j + 1;
      }
    }

    /** Collects the right rows up to the first larger key, from where the right input stands. */
    method Collect()
      requires Ready() && right.tuples == right.Rows() && right.currentIdx <= |right.Rows()|
      modifies right, `rightMatches
      ensures right.tuples == right.Rows()
      ensures right.currentIdx == merging.TakeTo(leftRecord, right.Rows(), old(right.currentIdx))
      ensures rightMatches == right.Rows()[old(right.currentIdx)..right.currentIdx]
    {
      ghost var p, rows := right.currentIdx, right.Rows();
      rightMatches := [];
      while !right.IsEnd()
        invariant right.tuples == rows && p <= right.currentIdx <= |rows|
        invariant rightMatches == rows[p..right.currentIdx]
        invariant merging.TakeTo(leftRecord, rows, right.currentIdx) == merging.TakeTo(leftRecord, rows, p)
        decreases |rows| - right.currentIdx
      {
        var rec := right.Next();
        if merging.CompareKeys(leftRecord, rec) < 0 { break; }
        rightMatches := rightMatches + [rec];
        right.NextTuple();
      }
    }

    /** Drops the collected rows before the first equal key. */
    method DropLower(ghost p: nat)
      requires p <= right.currentIdx <= |right.Rows()| && rightMatches == right.Rows()[p..right.currentIdx]
      modifies `rightMatches
      ensures rightMatches == right.Rows()[merging.SkipTo(leftRecord, right.Rows(), p, right.currentIdx)..right.currentIdx]
    {
      ghost var rows, q := right.Rows(), right.currentIdx;
      var i := 0;
      while i < |rightMatches|
        invariant i <= |rightMatches|
        invariant merging.SkipTo(leftRecord, rows, p + i, q) == merging.SkipTo(leftRecord, rows, p, q)
      {
        if merging.CompareKeys(leftRecord, rightMatches[i]) == 0 { break; }
        i := i + 1;
      }
      rightMatches := rightMatches[i..];
    }

    method Gather() returns (more: bool)
      requires Ready() && right.tuples == right.Rows() && right.currentIdx <= |right.Rows()|
      modifies right, right.prev, `rightMatches
      ensures right.tuples == right.Rows() && (more == (rightMatches != [] || right.Rows() != []))
      ensures var q := merging.TakeTo(leftRecord, right.Rows(), old(right.currentIdx));
              var s := merging.SkipTo(leftRecord, right.Rows(), old(right.currentIdx), q);
              rightMatches == right.Rows()[s..q] && right.currentIdx == if s < q then q else 0
    {
      ghost var p := right.currentIdx;
      Collect();
      DropLower(p);
      more := true;
      if rightMatches == [] {
        right.BeginTuple();
        more := !right.IsEnd();
      }
    }

    /** The buffer of the current left row: the right rows with its key, from where the right
        input stands; an empty buffer sends the right input back to its start. */
    method FillBuffer() returns (more: bool)
      requires OnLeft() && rightMatchPos == 0
      modifies right, right.prev, `rightMatches
      ensures OnLeft()
      ensures more ==> DueAfter() == old(merging.From(left.Rows(), right.Rows(), left.currentIdx, right.currentIdx))
      ensures !more ==> old(merging.From(left.Rows(), right.Rows(), left.currentIdx, right.currentIdx)) == []
    {
      merging.FromUnfold(left.Rows(), right.Rows(), left.currentIdx, right.currentIdx);
      more := Gather();
      assert rightMatches[0..] == rightMatches;
    }

    /** The next left row becomes current. */
    method StepLeft() returns (more: bool)
      requires OnLeft()
      modifies left, `leftRecord, `rightMatches, `rightMatchPos
      ensures Ready() && left.currentIdx == old(left.currentIdx) + 1
      ensures more ==> OnLeft() && rightMatchPos == 0
      ensures !more ==> left.currentIdx == |left.Rows()|
    {
      rightMatches := [];
      rightMatchPos := 0;
      left.NextTuple();
      more := !left.IsEnd();
      if more { leftRecord := left.Next(); }
    }

    /** The next left row becomes current with its buffer. */
    method NextLeft(ghost due: seq<Row>) returns (more: bool)
      requires OnLeft() && DueAfter() == due && rightMatchPos == |rightMatches|
      modifies left, right, right.prev, `leftRecord, `rightMatches, `rightMatchPos
      ensures Ready()
      ensures more ==> OnLeft() && rightMatchPos == 0 && left.currentIdx == old(left.currentIdx) + 1
      ensures more ==> DueAfter() == due
      ensures !more ==> due == []
    {
      Regroup([], [], merging.From(left.Rows(), right.Rows(), left.currentIdx + 1, right.currentIdx));
      more := StepLeft();
      if more {
        more := FillBuffer();
      }
    }

    /** Tests the next buffered row, or turns to the next left row. */
    method Step(ghost due: seq<Row>) returns (more: bool, found: bool)
      requires OnLeft() && DueAfter() == due
      modifies left, right, right.prev, `leftRecord, `rightRecord, `rightMatches, `rightMatchPos
      ensures Ready() && (found ==> more)
      ensures more ==> OnLeft()
      ensures found ==> [leftRecord + rightRecord] + DueAfter() == due
      ensures more && !found ==> DueAfter() == due
      ensures more && !found ==> Left() < old(Left()) || (Left() == old(Left()) && Buffered() < old(Buffered()))
      ensures !more ==> due == []
    {
      if rightMatchPos < |rightMatches| {
        found := TestNext(due);
        more := true;
      } else {
        found := false;
        more := NextLeft(due);
        if more {
          found := TestAll(due);
        }
      }
    }

    ghost function Left(): int
      reads left
    {
      |left.Rows()| - left.currentIdx
    }

    ghost function Buffered(): int
      reads this
    {
      |rightMatches| - rightMatchPos
    }

    /** Goes on through the buffer and the left rows until a pair passes all conditions. */
    method AdvanceToNextMatch(ghost due: seq<Row>) returns (found: bool)
      requires OnLeft() && DueAfter() == due
      modifies left, right, right.prev, `leftRecord, `rightRecord, `rightMatches, `rightMatchPos
      ensures Ready()
      ensures found ==> OnLeft() && [leftRecord + rightRecord] + DueAfter() == due
      ensures !found ==> due == []
    {
      while true
        invariant OnLeft() && DueAfter() == due
        decreases Left(), Buffered()
      {
        var more;
        more, found := Step(due);
        if !more || found { return; }
      }
    }

    // ---- the first match -----------------------------------------------------------

    /** Both inputs advance to the first equal keys; the run of equal right rows is buffered. */
    method FindFirstRun(ghost due: seq<Row>) returns (found: bool)
      requires Ready() && left.tuples == left.Rows() && right.tuples == right.Rows()
      requires left.currentIdx == 0 < |left.Rows()| && right.currentIdx == 0 && leftRecord == left.Rows()[0]
      requires due == merging.Start(left.Rows(), right.Rows(), 0, 0)
      modifies `leftRecord, `rightMatches, `rightMatchPos, left, right
      ensures found ==> OnLeft() && rightMatchPos == 0 && DueAfter() == due
      ensures !found ==> due == []
    {
      rightMatches := [];
      rightMatchPos := 0;
      while !right.IsEnd()
        invariant OnLeft() && rightMatches == [] && rightMatchPos == 0
        invariant merging.Start(left.Rows(), right.Rows(), left.currentIdx, right.currentIdx) == due
        decreases |left.Rows()| - left.currentIdx + |right.Rows()| - right.currentIdx
      {
        var rec := right.Next();
        var cmp := merging.CompareKeys(leftRecord, rec);
        if cmp < 0 {
          left.NextTuple();
          if left.IsEnd() { return false; }
          leftRecord := left.Next();
          continue;
        }
        if cmp > 0 {
          right.NextTuple();
          continue;
        }
        CollectRun();
        return true;
      }
      found := false;
    }

    /** Buffers the run of right rows whose key equals the left row's. */
    method CollectRun()
      requires OnLeft() && rightMatches == [] && rightMatchPos == 0
      requires right.currentIdx < |right.Rows()| && merging.CompareKeys(leftRecord, right.Rows()[right.currentIdx]) == 0
      modifies `rightMatches, right
      ensures OnLeft()
      ensures DueAfter() == old(merging.Start(left.Rows(), right.Rows(), left.currentIdx, right.currentIdx))
    {
      rightMatches := rightMatches + [right.Next()];
      ExtendRun(right.currentIdx);
      assert rightMatches[0..] == rightMatches;
    }

    method ExtendRun(ghost p: nat)
      requires right.tuples == right.Rows() && right.currentIdx == p < |right.Rows()|
      requires rightMatches == [right.Rows()[p]] && merging.CompareKeys(leftRecord, right.Rows()[p]) == 0
      modifies `rightMatches, right
      ensures right.tuples == right.Rows()
      ensures right.currentIdx == merging.RunTo(leftRecord, right.Rows(), p)
      ensures rightMatches == right.Rows()[p..right.currentIdx]
    {
      ghost var rows := right.Rows();
      while !right.IsEnd()
        invariant right.tuples == rows && p <= right.currentIdx <= |rows|
        invariant right.currentIdx < |rows| ==> rightMatches == rows[p..right.currentIdx + 1] &&
                                                merging.CompareKeys(leftRecord, rows[right.currentIdx]) == 0
        invariant right.currentIdx == |rows| ==> rightMatches == rows[p..]
        invariant merging.RunTo(leftRecord, rows, right.currentIdx) == merging.RunTo(leftRecord, rows, p)
        decreases |rows| - right.currentIdx
      {
        right.NextTuple();
        if !right.IsEnd() {
          var r2 := right.Next();
          if merging.CompareKeys(leftRecord, r2) != 0 { break; }
          rightMatches := rightMatches + [r2];
        }
      }
    }

    // ---- the iterator ----------------------------------------------------------------

    /** Restarts: everything the merge yields is due. */
    method BeginTuple()
      requires Ready()
      modifies this, left, right, left.prev, right.prev
      ensures Valid() && Remaining() == merging.Start(left.Rows(), right.Rows(), 0, 0)
    {
      left.BeginTuple();
      if left.IsEnd() {
        isEnd := true;
        return;
      }
      leftRecord := left.Next();
      right.BeginTuple();
      var found := FindFirstMatch(merging.Start(left.Rows(), right.Rows(), 0, 0));
      isEnd := !found;
    }

    /** Finds the first run of equal keys, and from there the first pair that passes all
        conditions. */
    method FindFirstMatch(ghost due: seq<Row>) returns (found: bool)
      requires Ready() && left.tuples == left.Rows() && right.tuples == right.Rows()
      requires left.currentIdx == 0 < |left.Rows()| && right.currentIdx == 0 && leftRecord == left.Rows()[0]
      requires due == merging.Start(left.Rows(), right.Rows(), 0, 0)
      modifies left, right, right.prev, `leftRecord, `rightRecord, `rightMatches, `rightMatchPos
      ensures Ready()
      ensures found ==> OnLeft() && [leftRecord + rightRecord] + DueAfter() == due
      ensures !found ==> due == []
    {
      found := FindFirstRun(due);
      if found {
        found := TestAll(due);
        if !found {
          found := AdvanceToNextMatch(due);
        }
      }
    }

    /** Drops the current row from what is due. */
    method NextTuple()
      requires Valid() && !isEnd
      modifies this, left, right, right.prev
      ensures Valid() && Remaining() == old(Remaining())[1..]
    {
      ghost var due := DueAfter();
      assert Remaining()[1..] == due;
      while rightMatchPos < |rightMatches|
        invariant OnLeft() && !isEnd && DueAfter() == due
        decreases |rightMatches| - rightMatchPos
      {
        var ok := TestNext(due);
        if ok { return; }
      }
      var found := AdvanceToNextMatch(due);
      if !found { isEnd := true; }
    }

    method Next() returns (row: Row)
      requires Valid() && !isEnd
      ensures row == Remaining()[0]
    {
      row := leftRecord + rightRecord;
    }

    lemma TakeOne(out: seq<Row>, due: seq<Row>, row: Row, rest: seq<Row>)
      requires due != [] && row == due[0] && rest == due[1..]
      ensures (out + [row]) + rest == out + due
    {
    }

    /** A full iteration yields the merge of the two sorted inputs ... */
    method Drain() returns (out: seq<Row>)
      requires Ready()
      modifies this, left, right, left.prev, right.prev
      ensures out == merging.Start(left.Rows(), right.Rows(), 0, 0)
    {
      out := [];
      BeginTuple();
      ghost var all := Remaining();
      while !isEnd
        invariant Valid() && out + Remaining() == all
        decreases |Remaining()|
      {
        ghost var due := Remaining();
        var row := Next();
        NextTuple();
        TakeOne(out, due, row, Remaining());
        out := out + [row];
      }
    }
  }
}
