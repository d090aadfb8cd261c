/** The nested-loop join executor: an iterator whose remaining output is always the rest of
    the relational join. */
module NestedLoopJoin {
  import opened Conditions
  import opened JoinSpec

  class NestedLoopJoinExecutor {
    const join: Join
    const left: Cursor
    const right: Cursor
    var isEnd: bool
    var leftRecord: Row
    var rightRecord: Row
    var leftHasMatch: bool
    var nullPadOutput: bool

    constructor (join: Join, left: Cursor, right: Cursor)
      requires left != right
      ensures Ready() && this.join == join && this.left == left && this.right == right && isEnd
    {
      this.join, this.left, this.right := join, left, right;
      isEnd, leftHasMatch, nullPadOutput := true, false, false;
      leftRecord, rightRecord := map[], map[];
    }

    ghost predicate Ready() {
      left != right
    }

    /** A left row is current. */
    ghost predicate OnLeft()
      reads this, left, right
    {
      && Ready()
      && left.pos < |left.rows| && leftRecord == left.rows[left.pos]
      && right.pos <= |right.rows|
    }

    /** The iterator stands on an output row, or has ended. */
    ghost predicate Valid()
      reads this, left, right
    {
      Ready() && (!isEnd ==> OnOutput())
    }

    /** The rows still to be yielded, the current one first. */
    ghost function Remaining(): seq<Row>
      requires Valid()
      reads this, left, right
    {
      if isEnd then [] else Due()
    }

    function CheckAllConds(): bool
      reads this
    {
      join.matches(leftRecord, rightRecord)
    }

    /** The iterator stands on an output row of the current left row. */
    ghost predicate OnOutput()
      reads this, left, right
    {
      && OnLeft() && leftHasMatch
      && if nullPadOutput then join.jt.LeftOuter? && right.pos == |right.rows|
         else right.pos < |right.rows| && rightRecord == right.rows[right.pos] && join.matches(leftRecord, rightRecord)
    }

    /** The current output row and all after it. */
    ghost function Due(): seq<Row>
      requires OnOutput()
      reads this, left, right
    {
      if nullPadOutput then [leftRecord + join.pad] + join.Rows(left.rows[left.pos + 1..], right.rows)
      else [leftRecord + rightRecord] + join.RestFrom(left.rows, right.rows, left.pos, right.pos + 1, true)
    }

    /** First right row not yet looked at. */
    ghost function NextRight(): nat
      reads right
    {
      if right.pos < |right.rows| then right.pos + 1 else right.pos
    }

    /** Output due once the current right row has been dealt with. */
    ghost function DueAfter(): seq<Row>
      requires OnLeft()
      reads this, left, right
    {
      join.RestFrom(left.rows, right.rows, left.pos, NextRight(), leftHasMatch)
    }

    /** Looks at the current right row: it is the next output row or is passed over. `due` is the
        output due from here on. */
    method TestRight(ghost due: seq<Row>) returns (found: bool)
      requires OnLeft() && right.pos < |right.rows|
      requires due == join.RestFrom(left.rows, right.rows, left.pos, right.pos, leftHasMatch)
      modifies `rightRecord, `leftHasMatch, `nullPadOutput
      ensures OnLeft()
      ensures found ==> OnOutput() && !nullPadOutput && Due() == due
      ensures !found ==> DueAfter() == due && leftHasMatch == old(leftHasMatch)
    {
      rightRecord := right.Next();
      join.PastRight(left.rows, right.rows, left.pos, right.pos, leftHasMatch);
      ghost var hit := join.RestFrom(left.rows, right.rows, left.pos, right.pos + 1, true);
      ghost var miss := join.RestFrom(left.rows, right.rows, left.pos, right.pos + 1, leftHasMatch);
      found := CheckAllConds();
      assert due == if found then [leftRecord + rightRecord] + hit else miss;
      if found {
        leftHasMatch := true;
        nullPadOutput := false;
      }
    }

    /** Makes the next left row current and looks at the first right row. */
    method StartLeft(ghost due: seq<Row>) returns (found: bool)
      requires Ready() && left.pos < |left.rows| && due == join.Rows(left.rows[left.pos..], right.rows)
      modifies `leftRecord, `rightRecord, `leftHasMatch, `nullPadOutput, right
      ensures OnLeft()
      ensures found ==> OnOutput() && Due() == due
      ensures !found ==> DueAfter() == due
    {
      join.NextLeft(left.rows, right.rows, left.pos);
      leftRecord := left.Next();
      leftHasMatch := false;
      nullPadOutput := false;
      right.BeginTuple();
      found := false;
      if !right.IsEnd() {
        found := TestRight(due);
      }
    }

    /** On to the next right row, if there is one. */
    method StepRight(ghost due: seq<Row>) returns (found: bool)
      requires OnLeft() && DueAfter() == due
      modifies `rightRecord, `leftHasMatch, `nullPadOutput, right
      ensures OnLeft()
      ensures right.pos == old(NextRight()) && (right.IsEnd() ==> !found)
      ensures found ==> OnOutput() && Due() == due
      ensures !found ==> DueAfter() == due
    {
      right.NextTuple();
      found := false;
      if !right.IsEnd() {
        found := TestRight(due);
      }
    }

    /** The right input is used up and the left row never matched: it is padded. */
    method PadLeft(ghost due: seq<Row>)
      requires OnLeft() && DueAfter() == due && right.IsEnd() && !leftHasMatch && join.jt.LeftOuter?
      modifies `leftHasMatch, `nullPadOutput
      ensures OnOutput() && Due() == due
    {
      join.PadsUnmatched(left.rows, right.rows, left.pos);
      nullPadOutput := true;
      leftHasMatch := true;
    }

    /** Steps to the next left row, if there is one. */
    method StepLeft(ghost due: seq<Row>) returns (more: bool, found: bool)
      requires Ready() && left.pos < |left.rows| && due == join.Rows(left.rows[left.pos + 1..], right.rows)
      modifies `leftRecord, `rightRecord, `leftHasMatch, `nullPadOutput, left, right
      ensures Ready() && (found ==> more)
      ensures !more ==> due == []
      ensures more ==> OnLeft() && left.pos == old(left.pos) + 1
      ensures found ==> OnOutput() && Due() == due
      ensures more && !found ==> DueAfter() == due
    {
      left.NextTuple();
      more, found := !left.IsEnd(), false;
      if more {
        found := StartLeft(due);
      }
    }

    /** The right input is used up and the left row is done: on to the next left row. */
    method AdvanceLeft(ghost due: seq<Row>) returns (more: bool, found: bool)
      requires OnLeft() && DueAfter() == due && right.IsEnd() && (leftHasMatch || join.jt.Inner?)
      modifies `leftRecord, `rightRecord, `leftHasMatch, `nullPadOutput, left, right
      ensures Ready() && (found ==> more)
      ensures !more ==> due == []
      ensures more ==> OnLeft() && left.pos == old(left.pos) + 1
      ensures found ==> OnOutput() && Due() == due
      ensures more && !found ==> DueAfter() == due
    {
      join.RightDone(left.rows, right.rows, left.pos, leftHasMatch);
      more, found := StepLeft(due);
    }

    /** Steps to the next right row, pads an unmatched left row, or moves to the next left row,
        until there is an output row or the left input ends. */
    method FindNextMatch(ghost due: seq<Row>) returns (found: bool)
      requires OnLeft() && DueAfter() == due
      modifies `leftRecord, `rightRecord, `leftHasMatch, `nullPadOutput, left, right
      ensures Ready()
      ensures found ==> OnOutput() && Due() == due
      ensures !found ==> due == []
    {
      while true
        invariant OnLeft() && DueAfter() == due
        decreases |left.rows| - left.pos, |right.rows| - right.pos
      {
        found := StepRight(due);
        if found { return; }
        if !right.IsEnd() { continue; }
        if !leftHasMatch && join.jt.LeftOuter? {
          PadLeft(due);
          return true;
        }
        var more;
        more, found := AdvanceLeft(due);
        if !more || found { return; }
      }
    }

    // ---- the iterator -----------------------------------------------------

    /** Restarts: everything the join yields is due. */
    method BeginTuple()
      requires Ready()
      modifies this, left, right
      ensures Valid() && Remaining() == join.Rows(left.rows, right.rows)
    {
      left.BeginTuple();
      if left.IsEnd() {
        isEnd := true;
        return;
      }
      assert left.rows[0..] == left.rows;
      var found := FindFirstMatch(join.Rows(left.rows, right.rows));
      isEnd := !found;
    }

    method FindFirstMatch(ghost due: seq<Row>) returns (found: bool)
      requires Ready() && left.pos < |left.rows| && due == join.Rows(left.rows[left.pos..], right.rows)
      modifies `leftRecord, `rightRecord, `leftHasMatch, `nullPadOutput, left, right
      ensures Ready()
      ensures found ==> OnOutput() && Due() == due
      ensures !found ==> due == []
    {
      found := StartLeft(due);
      if !found {
        found := FindNextMatch(due);
      }
    }

    /** Drops the current row from what is due. */
    method NextTuple()
      requires Valid() && !isEnd
      modifies this, left, right
      ensures Valid() && Remaining() == old(Remaining())[1..]
    {
      ghost var due := Due()[1..];
      var found := false;
      if nullPadOutput {
        var more;
        more, found := StepLeft(due);
        if !more {
          isEnd := true;
          return;
        }
      }
      if found { return; }
      found := FindNextMatch(due);
      if !found {
        isEnd := true;
      }
    }

    /** The current row: left and right values, or the left values and zeroed right ones. */
    method Next() returns (row: Row)
      requires Valid() && !isEnd
      ensures row == Remaining()[0]
    {
      row := if nullPadOutput then leftRecord + join.pad else leftRecord + rightRecord;
    }

    lemma TakeOne(out: seq<Row>, due: seq<Row>, row: Row, rest: seq<Row>)
      requires due != [] && row == due[0] && rest == due[1..]
      ensures (out + [row]) + rest == out + due
    {
    }

    /** A full iteration yields the relational join, in order. */
    method Drain() returns (out: seq<Row>)
      requires Ready()
      modifies this, left, right
      ensures out == join.Rows(left.rows, right.rows)
    {
      out := [];
      BeginTuple();
      ghost var all := Remaining();
      while !isEnd
        invariant Valid() && out + Remaining() == all
        decreases |Remaining()|
      {
        ghost var due := Remaining();
        var row := Next();
        NextTuple();
        TakeOne(out, due, row, Remaining());
        out := out + [row];
      }
    }
  }
}
