/** Display width, truncation and padding of UTF-8 text. A `char` below 256 stands for a byte. */
module Utf8Width {

  function Code(c: char): int {
    c as int
  }

  /** Neither ASCII nor the first byte of a longer sequence. */
  predicate IsContinuation(c: char) {
    0x80 <= Code(c) < 0xC0
  }

  /** Length of the sequence a first byte announces; an invalid byte counts as one. */
  function SeqLen(c: char): nat {
    if 0xC0 <= Code(c) < 0xE0 then 2 else if 0xE0 <= Code(c) < 0xF0 then 3 else if 0xF0 <= Code(c) < 0xF8 then 4 else 1
  }

  function CharWidth(c: char): nat {
    if Code(c) < 0x80 then 1 else 2
  }

  /** The display width: ASCII counts one, the first byte of a longer sequence two, the others none. */
  function Width(s: string): nat {
    if s == "" then 0
    else Width(s[..|s| - 1]) + if Code(s[|s| - 1]) < 0x80 then 1 else if !IsContinuation(s[|s| - 1]) then 2 else 0
  }

  /** A first byte followed by as many continuation bytes as it announces, as in section 3 of
      RFC 3629. */
  predicate SequenceAt(s: string, i: nat)
    requires i < |s|
  {
    && Code(s[i]) < 0xF8 && !IsContinuation(s[i])
    && i + SeqLen(s[i]) <= |s|
    && forall k :: i < k < i + SeqLen(s[i]) ==> IsContinuation(s[k])
  }

  /** The text from byte `i` on is a row of sequences. */
  predicate WellFormedFrom(s: string, i: nat)
    requires i <= |s|
    decreases |s| - i
  {
    i == |s| || (SequenceAt(s, i) && WellFormedFrom(s, i + SeqLen(s[i])))
  }

  predicate WellFormed(s: string) {
    WellFormedFrom(s, 0)
  }

  method DisplayWidth(s: string) returns (w: nat)
    ensures w == Width(s)
  {
    w := 0;
    for i := 0 to |s|
      invariant w == Width(s[..i])
    {
      WidthNext(s, i);
      if Code(s[i]) < 0x80 {
        w := w + 1;
      } else if !IsContinuation(s[i]) {
        w := w + 2;
      }
    }
    assert s[..|s|] == s;
  }

  lemma {:induction false} WidthConcat(a: string, b: string)
    ensures Width(a + b) == Width(a) + Width(b)
  {
    if b == "" {
      assert a + b == a;
    } else {
      WidthConcat(a, b[..|b| - 1]);
      assert (a + b)[..|a + b| - 1] == a + b[..|b| - 1];
    }
  }

  lemma WidthNext(s: string, i: nat)
    requires i < |s|
    ensures Width(s[..i + 1]) == Width(s[..i]) + if Code(s[i]) < 0x80 then 1 else if !IsContinuation(s[i]) then 2 else 0
  {
    assert s[..i + 1][..i] == s[..i];
  }

  /** A sequence is as wide as its first byte says. */
  lemma SequenceWidth(s: string, i: nat)
    requires i < |s| && SequenceAt(s, i)
    ensures Width(s[..i + SeqLen(s[i])]) == Width(s[..i]) + CharWidth(s[i])
  {
    var n := SeqLen(s[i]);
    WidthNext(s, i);
    if n >= 2 { WidthNext(s, i + 1); assert IsContinuation(s[i + 1]); }
    if n >= 3 { WidthNext(s, i + 2); assert IsContinuation(s[i + 2]); }
    if n >= 4 { WidthNext(s, i + 3); assert IsContinuation(s[i + 3]); }
  }

  /** Where truncation to `maxW` columns cuts, counting on from byte `i` and width `w`. */
  function CutFrom(s: string, maxW: int, i: nat, w: nat): (r: nat)
    requires i <= |s|
    ensures i <= r <= |s|
    decreases |s| - i
  {
    if i == |s| || w + CharWidth(s[i]) > maxW || i + SeqLen(s[i]) > |s| then i
    else CutFrom(s, maxW, i + SeqLen(s[i]), w + CharWidth(s[i]))
  }

  const DOTS: string := "..."

  method Truncate(s: string, maxW: int) returns (r: string)
    ensures var cut := CutFrom(s, maxW, 0, 0); r == if cut < |s| then s[..cut] + DOTS else s
  {
    var w, lastGood, i := 0, 0, 0;
    while i < |s|
      invariant i <= |s| && lastGood == i
      invariant CutFrom(s, maxW, i, w) == CutFrom(s, maxW, 0, 0)
      decreases |s| - i
    {
      var seqLen := SeqLen(s[i]);
      var charW := if Code(s[i]) < 0x80 then 1 else 2;
      if w + charW > maxW { break; }
      if i + seqLen > |s| { break; }
      w := w + charW;
      lastGood := i + seqLen;
      i := i + seqLen;
    }
    if lastGood < |s| {
      return s[..lastGood] + DOTS;
    }
    r := s;
  }

  /** On well-formed text the cut is between two sequences, what is left fits, and one more
      sequence would not. */
  lemma {:induction false} CutFits(s: string, maxW: int, i: nat, w: nat)
    requires i <= |s| && WellFormedFrom(s, i) && w == Width(s[..i]) && w <= maxW
    ensures var cut := CutFrom(s, maxW, i, w);
            && WellFormedFrom(s, cut) && Width(s[..cut]) <= maxW
            && (cut < |s| ==> Width(s[..cut + SeqLen(s[cut])]) > maxW)
    decreases |s| - i
  {
    if i < |s| {
      SequenceWidth(s, i);
      var next, wide := i + SeqLen(s[i]), w + CharWidth(s[i]);
      if wide <= maxW {
        assert CutFrom(s, maxW, i, w) == CutFrom(s, maxW, next, wide);
        CutFits(s, maxW, next, wide);
      }
    }
  }

  /** Cutting at a boundary splits no sequence: both parts are well-formed. */
  lemma {:induction false} BoundaryPrefix(s: string, i: nat, cut: nat)
    requires i <= cut <= |s| && WellFormedFrom(s, i) && OnBoundary(s, i, cut)
    ensures WellFormedFrom(s[..cut], i)
    decreases cut - i
  {
    if i < cut {
      BoundaryPrefix(s, i + SeqLen(s[i]), cut);
    }
  }

  /** `cut` is reached from `i` by whole sequences. */
  predicate OnBoundary(s: string, i: nat, cut: nat)
    requires i <= |s| && cut <= |s|
    decreases |s| - i
  {
    i == cut || (i < cut && i + SeqLen(s[i]) <= cut && OnBoundary(s, i + SeqLen(s[i]), cut))
  }

  lemma {:induction false} CutOnBoundary(s: string, maxW: int, i: nat, w: nat)
    requires i <= |s|
    ensures OnBoundary(s, i, CutFrom(s, maxW, i, w))
    decreases |s| - i
  {
    if i < |s| && !(w + CharWidth(s[i]) > maxW || i + SeqLen(s[i]) > |s|) {
      CutOnBoundary(s, maxW, i + SeqLen(s[i]), w + CharWidth(s[i]));
    }
  }

  /** The text is never cut inside a sequence. */
  lemma TruncationKeepsSequences(s: string, maxW: int)
    requires WellFormed(s)
    ensures WellFormed(s[..CutFrom(s, maxW, 0, 0)])
  {
    CutOnBoundary(s, maxW, 0, 0);
    BoundaryPrefix(s, 0, CutFrom(s, maxW, 0, 0));
  }

  function Spaces(n: nat): string {
    seq(n, _ => ' ')
  }

  function Padded(s: string, target: nat): string {
    if Width(s) >= target then s else s + Spaces(target - Width(s))
  }

  method Pad(s: string, target: nat) returns (r: string)
    ensures r == Padded(s, target)
  {
    var curW := DisplayWidth(s);
    if curW >= target { return s; }
    r := s + Spaces(target - curW);
  }

  lemma {:induction false} SpacesWidth(n: nat)
    ensures Width(Spaces(n)) == n
  {
    if n > 0 {
      assert Spaces(n)[..n - 1] == Spaces(n - 1);
      SpacesWidth(n - 1);
    }
  }

  /** Padding fills up to the target width exactly. */
  lemma PaddedWidth(s: string, target: nat)
    requires Width(s) <= target
    ensures Width(Padded(s, target)) == target
  {
    if Width(s) < target {
      WidthConcat(s, Spaces(target - Width(s)));
      SpacesWidth(target - Width(s));
    }
  }

  // ---- a table cell ---------------------------------------------------------------

  const COL_WIDTH: nat := 16

  /** A value as it is shown: too wide a one is cut to 13 columns and three dots. */
  function Shown(col: string): string {
    if Width(col) > COL_WIDTH then
      var cut := CutFrom(col, COL_WIDTH - 3, 0, 0);
      if cut < |col| then col[..cut] + DOTS else col
    else col
  }

  /** Every cell of well-formed text is exactly sixteen columns wide. */
  lemma CellWidth(col: string)
    requires WellFormed(col)
    ensures Width(Padded(Shown(col), COL_WIDTH)) == COL_WIDTH
  {
    if Width(col) > COL_WIDTH {
      var cut := CutFrom(col, COL_WIDTH - 3, 0, 0);
      CutFits(col, COL_WIDTH - 3, 0, 0);
      assert col[..|col|] == col;
      WidthConcat(col[..cut], DOTS);
      assert DOTS[..2][..1] == "." && DOTS[..2] == "..";
      assert Width("") == 0 && Width(".") == 1 && Width("..") == 2 && Width(DOTS) == 3;
    }
    PaddedWidth(Shown(col), COL_WIDTH);
  }
}
