/** Text as code points, encoded by section 3 of RFC 3629, and what the printer does to it. */
module Utf8Text {
  import opened Utf8Width

  // ---- text in whole sequences -----------------------------------------------------------

  predicate IsPiece(e: string) {
    e != "" && SequenceAt(e, 0) && SeqLen(e[0]) == |e|
  }

  /** One byte sequence of well-formed text. */
  type Piece = e: string | IsPiece(e) witness "a"

  function Joined(es: seq<Piece>): string {
    if es == [] then "" else es[0] + Joined(es[1..])
  }

  function PieceWidth(es: seq<Piece>): nat {
    if es == [] then 0 else CharWidth(es[0][0]) + PieceWidth(es[1..])
  }

  /** How many pieces fit in `maxW` columns. */
  function Fitting(es: seq<Piece>, maxW: int): (k: nat)
    ensures k <= |es|
  {
    if es == [] || CharWidth(es[0][0]) > maxW then 0 else 1 + Fitting(es[1..], maxW - CharWidth(es[0][0]))
  }

  /** A piece in the middle of a text. */
  lemma Within(before: string, e: Piece, rest: string)
    ensures var s := before + (e + rest);
            && SequenceAt(s, |before|) && s[|before|] == e[0] && s[..|before|] == before
            && |before| + |e| <= |s| && s[..|before| + |e|] == before + e && s == before + e + rest
  {
    var s := before + (e + rest);
    assert forall k :: 0 <= k < |e| ==> s[k + |before|] == e[k];
    forall k | |before| < k < |before| + |e| ensures IsContinuation(s[k]) { assert s[k] == e[k - |before|]; }
  }

  /** Pieces one after the other are well-formed text of their width. */
  lemma {:induction false} JoinedText(before: string, es: seq<Piece>)
    ensures WellFormedFrom(before + Joined(es), |before|)
    ensures Width(before + Joined(es)) == Width(before) + PieceWidth(es)
    decreases |es|
  {
    if es == [] {
      assert before + "" == before;
    } else {
      Within(before, es[0], Joined(es[1..]));
      JoinedText(before + es[0], es[1..]);
      OneWider(before, es[0], Joined(es[1..]));
    }
  }

  lemma OneWider(before: string, e: Piece, rest: string)
    ensures Width(before + e) == Width(before) + CharWidth(e[0])
    ensures WellFormedFrom(before + e + rest, |before + e|) ==> WellFormedFrom(before + (e + rest), |before|)
  {
    Within(before, e, rest);
    SequenceWidth(before + (e + rest), |before|);
  }

  lemma {:induction false} FittingIs(es: seq<Piece>, maxW: nat)
    ensures var k := Fitting(es, maxW);
            PieceWidth(es[..k]) <= maxW && (k < |es| ==> maxW < PieceWidth(es[..k + 1]))
  {
    if es != [] {
      var k := Fitting(es, maxW);
      if k > 0 {
        FittingIs(es[1..], maxW - CharWidth(es[0][0]));
        WidthFirst(es, k);
        if k < |es| { WidthFirst(es, k + 1); }
      } else {
        WidthFirst(es, 1);
      }
    }
  }

  lemma WidthFirst(es: seq<Piece>, k: nat)
    requires 0 < k <= |es|
    ensures PieceWidth(es[..k]) == CharWidth(es[0][0]) + PieceWidth(es[1..][..k - 1])
  {
    assert es[..k][0] == es[0] && es[..k][1..] == es[1..][..k - 1];
  }

  lemma JoinedFirst(es: seq<Piece>, k: nat)
    requires 0 < k <= |es|
    ensures Joined(es[..k]) == es[0] + Joined(es[1..][..k - 1])
  {
    assert es[..k][0] == es[0] && es[..k][1..] == es[1..][..k - 1];
  }

  lemma CutStep(before: string, e: Piece, rest: string, maxW: int, w: nat)
    ensures CutFrom(before + (e + rest), maxW, |before|, w) ==
            if w + CharWidth(e[0]) > maxW then |before| else CutFrom(before + e + rest, maxW, |before + e|, w + CharWidth(e[0]))
  {
    Within(before, e, rest);
  }

  /** Truncation keeps just the pieces that fit. */
  lemma {:induction false} CutIs(before: string, es: seq<Piece>, maxW: int, w: nat)
    ensures CutFrom(before + Joined(es), maxW, |before|, w) == |before| + |Joined(es[..Fitting(es, maxW - w)])|
    decreases |es|
  {
    if es == [] {
      assert before + "" == before;
    } else {
      var e, rest := es[0], Joined(es[1..]);
      CutStep(before, e, rest, maxW, w);
      if w + CharWidth(e[0]) <= maxW {
        CutIs(before + e, es[1..], maxW, w + CharWidth(e[0]));
        JoinedFirst(es, Fitting(es, maxW - w));
      }
    }
  }

  /** The first pieces are the beginning of the text, and less than all of it if they are not all. */
  lemma {:induction false} JoinedPrefix(es: seq<Piece>, k: nat)
    requires k <= |es|
    ensures Joined(es[..k]) <= Joined(es) && (k < |es| ==> |Joined(es[..k])| < |Joined(es)|)
  {
    if k > 0 {
      JoinedPrefix(es[1..], k - 1);
      JoinedFirst(es, k);
    }
  }

  lemma ShownCut(s: string, before: string)
    requires before <= s && |before| < |s| && CutFrom(s, 13, 0, 0) == |before|
    ensures Shown(s) == if Width(s) <= 16 then s else before + "..."
  {
    assert s[..|before|] == before;
  }

  /** What fits in thirteen columns is not all of a text of more than sixteen. */
  lemma SomeLeft(es: seq<Piece>)
    requires PieceWidth(es) > 16
    ensures Fitting(es, 13) < |es|
  {
    FittingIs(es, 13);
    assert es[..|es|] == es;
  }

  lemma WholeWidth(es: seq<Piece>)
    ensures Width(Joined(es)) == PieceWidth(es) && WellFormed(Joined(es))
  {
    JoinedText("", es);
    assert "" + Joined(es) == Joined(es);
  }

  lemma WholeCut(es: seq<Piece>, maxW: int)
    ensures CutFrom(Joined(es), maxW, 0, 0) == |Joined(es[..Fitting(es, maxW)])|
  {
    CutIs("", es, maxW, 0);
    assert "" + Joined(es) == Joined(es);
  }

  /** A cell shows pieces of up to sixteen columns as they are; of more it shows the most that take up to
      thirteen columns, and three dots. */
  lemma ShownPieces(es: seq<Piece>)
    ensures Shown(Joined(es)) == if PieceWidth(es) <= 16 then Joined(es) else Joined(es[..Fitting(es, 13)]) + "..."
  {
    WholeWidth(es);
    if PieceWidth(es) > 16 {
      SomeLeft(es);
      WholeCut(es, 13);
      JoinedPrefix(es, Fitting(es, 13));
      ShownCut(Joined(es), Joined(es[..Fitting(es, 13)]));
    }
  }

  /** A byte's class is told by its upper bits: 10 continues a sequence; 110, 1110 and 11110 begin one of
      two, three and four bytes; anything else stands alone. */
  lemma ByteClass(c: char)
    requires c as int < 256
    ensures IsContinuation(c) <==> c as int / 64 == 2
    ensures SeqLen(c) == if c as int / 32 == 6 then 2 else if c as int / 16 == 14 then 3 else if c as int / 8 == 30 then 4 else 1
  {
  }

  // ---- code points -------------------------------------------------------------------------

  type CodePoint = c: int | 0 <= c < 0x110000

  function Byte(n: int): char
    requires 0 <= n < 256
  {
    n as char
  }

  function Tail(n: int): char {
    Byte(0x80 + n % 64)
  }

  function Encode(c: CodePoint): (e: Piece)
    ensures CharWidth(e[0]) == if c < 0x80 then 1 else 2
  {
    if c < 0x80 then [Byte(c)]
    else if c < 0x800 then [Byte(0xC0 + c / 64), Tail(c)]
    else if c < 0x1_0000 then [Byte(0xE0 + c / 0x1000), Tail(c / 64), Tail(c)]
    else [Byte(0xF0 + c / 0x4_0000), Tail(c / 0x1000), Tail(c / 64), Tail(c)]
  }

  function Encoded(text: seq<CodePoint>): (es: seq<Piece>)
    ensures |es| == |text|
  {
    seq(|text|, i requires 0 <= i < |text| => Encode(text[i]))
  }

  function EncodeAll(text: seq<CodePoint>): string {
    Joined(Encoded(text))
  }

  /** The columns a text takes: one for ASCII, two for anything else. */
  function Columns(text: seq<CodePoint>): nat {
    if text == [] then 0 else (if text[0] < 0x80 then 1 else 2) + Columns(text[1..])
  }

  lemma {:induction false} EncodedWidth(text: seq<CodePoint>)
    ensures PieceWidth(Encoded(text)) == Columns(text)
  {
    if text != [] {
      assert Encoded(text)[1..] == Encoded(text[1..]);
      EncodedWidth(text[1..]);
    }
  }

  /** Encoded text is well-formed and as wide as its code points. */
  lemma EncodedText(text: seq<CodePoint>)
    ensures WellFormed(EncodeAll(text)) && Width(EncodeAll(text)) == Columns(text)
  {
    WholeWidth(Encoded(text));
    EncodedWidth(text);
  }

  /** A cell shows a text of up to sixteen columns as it is; of a wider one it shows the longest
      beginning of up to thirteen columns, in whole code points, and three dots. */
  lemma ShownText(text: seq<CodePoint>) returns (k: nat)
    ensures k <= |text|
    ensures Shown(EncodeAll(text)) == if Columns(text) <= 16 then EncodeAll(text) else EncodeAll(text[..k]) + "..."
    ensures Columns(text) > 16 ==> k < |text| && Columns(text[..k]) <= 13 < Columns(text[..k + 1])
  {
    var es := Encoded(text);
    k := Fitting(es, 13);
    EncodedWidth(text);
    ShownPieces(es);
    FittingIs(es, 13);
    if Columns(text) > 16 { SomeLeft(es); }
    assert es[..k] == Encoded(text[..k]);
    EncodedWidth(text[..k]);
    if k < |text| {
      assert es[..k + 1] == Encoded(text[..k + 1]);
      EncodedWidth(text[..k + 1]);
    }
  }

  // ---- the encoding loses nothing ---------------------------------------------------------

  function Bits(c: char): int {
    c as int % 64
  }

  /** The code point of a sequence. */
  function Decode(e: Piece): int {
    if |e| == 1 then e[0] as int
    else if |e| == 2 then e[0] as int % 32 * 64 + Bits(e[1])
    else if |e| == 3 then e[0] as int % 16 * 0x1000 + Bits(e[1]) * 64 + Bits(e[2])
    else e[0] as int % 8 * 0x4_0000 + Bits(e[1]) * 0x1000 + Bits(e[2]) * 64 + Bits(e[3])
  }

  lemma SixBits(n: int)
    ensures Bits(Tail(n)) == n % 64
  {
  }

  lemma DivideTwice(c: nat)
    ensures c == c / 64 * 64 + c % 64
    ensures c / 64 == c / 0x1000 * 64 + c / 64 % 64
    ensures c / 0x1000 == c / 0x4_0000 * 64 + c / 0x1000 % 64
  {
  }

  lemma DecodeShort(c: CodePoint)
    requires c < 0x800
    ensures Decode(Encode(c)) == c
  {
    SixBits(c);
  }

  lemma DecodeLong(c: CodePoint)
    requires c >= 0x800
    ensures Decode(Encode(c)) == c
  {
    SixBits(c);
    SixBits(c / 64);
    SixBits(c / 0x1000);
    DivideTwice(c);
  }

  lemma DecodeEncode(c: CodePoint)
    ensures Decode(Encode(c)) == c
  {
    if c < 0x800 { DecodeShort(c); } else { DecodeLong(c); }
  }
}
