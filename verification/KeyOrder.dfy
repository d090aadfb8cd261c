/** The order of index keys. Keys are byte strings over a list of typed columns; their order is
    an integer order, which is why the tree's model takes integers as keys. */
module KeyOrder {
  import opened Conditions

  type Bytes = seq<int>

  datatype ColumnType = KeyInt | KeyFloat | KeyString

  datatype Column = Column(typ: ColumnType, len: nat)

  predicate BytesOk(a: Bytes) {
    forall i :: 0 <= i < |a| ==> 0 <= a[i] < 256
  }

  predicate ColumnOk(c: Column) {
    c.typ.KeyString? || c.len == 4
  }

  function Pow2(n: nat): (p: nat)
    ensures p >= 1
  {
    if n == 0 then 1 else 2 * Pow2(n - 1)
  }

  // ---- values of the columns --------------------------------------------------------

  /** Four bytes, the least significant first. */
  function Word(a: Bytes): (w: int)
    requires BytesOk(a) && |a| == 4
    ensures 0 <= w < 0x1_0000_0000
  {
    a[0] + 0x100 * a[1] + 0x1_0000 * a[2] + 0x100_0000 * a[3]
  }

  function IntValue(a: Bytes): (v: int)
    requires BytesOk(a) && |a| == 4
    ensures -0x8000_0000 <= v < 0x8000_0000
  {
    if Word(a) >= 0x8000_0000 then Word(a) - 0x1_0000_0000 else Word(a)
  }

  function Exponent(a: Bytes): (e: int)
    requires BytesOk(a) && |a| == 4
    ensures 0 <= e < 256
  {
    Word(a) % 0x8000_0000 / 0x80_0000
  }

  function Fraction(a: Bytes): (f: int)
    requires BytesOk(a) && |a| == 4
    ensures 0 <= f < 0x80_0000
  {
    Word(a) % 0x80_0000
  }

  /** A single-precision number in units of two to the minus 149; infinities come out beyond all
      numbers. */
  function FloatValue(a: Bytes): int
    requires BytesOk(a) && |a| == 4
  {
    var m: int := Magnitude(Exponent(a), Fraction(a));
    if Word(a) >= 0x8000_0000 then -m else m
  }

  function Magnitude(e: nat, f: nat): nat {
    if e == 0 then f else (0x80_0000 + f) * Pow2(e - 1)
  }

  /** Bytes as one number, the most significant first. */
  function BigEndian(a: Bytes): nat
    requires BytesOk(a)
  {
    if a == [] then 0 else BigEndian(a[..|a| - 1]) * 256 + a[|a| - 1]
  }

  // ---- the comparison ------------------------------------------------------------------

  function MemCmp(a: Bytes, b: Bytes): int
    requires |a| == |b|
  {
    if a == [] then 0 else if a[0] != b[0] then a[0] - b[0] else MemCmp(a[1..], b[1..])
  }

  function Sign(x: int, y: int): int {
    if x < y then -1 else if x > y then 1 else 0
  }

  function CompareColumn(a: Bytes, b: Bytes, c: Column): int
    requires ColumnOk(c) && BytesOk(a) && BytesOk(b) && |a| == |b| == c.len
  {
    match c.typ
    case KeyInt => Sign(IntValue(a), IntValue(b))
    case KeyFloat => Sign(FloatValue(a), FloatValue(b))
    case KeyString => MemCmp(a, b)
  }

  function TotalLen(cols: seq<Column>): nat {
    if cols == [] then 0 else cols[0].len + TotalLen(cols[1..])
  }

  predicate KeyOk(a: Bytes, cols: seq<Column>) {
    BytesOk(a) && |a| == TotalLen(cols) && forall i :: 0 <= i < |cols| ==> ColumnOk(cols[i])
  }

  /** Column after column; the first that differs decides. */
  function IxCompare(a: Bytes, b: Bytes, cols: seq<Column>): int
    requires KeyOk(a, cols) && KeyOk(b, cols)
    decreases |cols|
  {
    if cols == [] then 0
    else
      var n := cols[0].len;
      var res := CompareColumn(a[..n], b[..n], cols[0]);
      if res != 0 then res else IxCompare(a[n..], b[n..], cols[1..])
  }

  // ---- the rank --------------------------------------------------------------------------

  const MAX_EXPONENT: nat := 254
  const FLOAT_BOUND: int := 2 * 0x80_0000 * Pow2(MAX_EXPONENT)

  lemma {:induction false} PowMono(m: nat, n: nat)
    requires m <= n
    ensures Pow2(m) <= Pow2(n)
  {
    if m < n { PowMono(m, n - 1); }
  }

  lemma ProductBound(x: nat, y: nat, a: nat, b: nat)
    requires x <= a && y <= b
    ensures x * y <= a * b
  {
    assert x * y <= a * y <= a * b;
  }

  lemma MantissaBound(f: nat, e: nat, n: nat)
    requires f < 0x80_0000 && e <= n
    ensures (0x80_0000 + f) * Pow2(e) <= 2 * 0x80_0000 * Pow2(n)
  {
    PowMono(e, n);
    ProductBound(0x80_0000 + f, Pow2(e), 2 * 0x80_0000, Pow2(n));
  }

  lemma MagnitudeBound(e: nat, f: nat, n: nat)
    requires e <= n + 1 && f < 0x80_0000
    ensures Magnitude(e, f) <= 2 * 0x80_0000 * Pow2(n)
  {
    MantissaBound(f, if e == 0 then 0 else e - 1, n);
  }

  lemma FloatBounded(a: Bytes)
    requires BytesOk(a) && |a| == 4
    ensures -FLOAT_BOUND <= FloatValue(a) <= FLOAT_BOUND
  {
    MagnitudeBound(Exponent(a), Fraction(a), MAX_EXPONENT);
  }

  function Size(c: Column): (n: nat)
    ensures n >= 1
  {
    match c.typ
    case KeyInt => 0x1_0000_0000
    case KeyFloat => 2 * FLOAT_BOUND + 1
    case KeyString => Pow2(8 * c.len)
  }

  lemma {:induction false} BigEndianBounded(a: Bytes)
    requires BytesOk(a)
    ensures BigEndian(a) < Pow2(8 * |a|)
  {
    if a != [] {
      var n := |a| - 1;
      BigEndianBounded(a[..n]);
      Pow2Byte(8 * n);
    }
  }

  lemma Pow2Byte(n: nat)
    ensures Pow2(n + 8) == 256 * Pow2(n)
  {
    assert Pow2(n + 8) == 2 * Pow2(n + 7) == 4 * Pow2(n + 6) == 8 * Pow2(n + 5) == 16 * Pow2(n + 4);
    assert Pow2(n + 4) == 2 * Pow2(n + 3) == 4 * Pow2(n + 2) == 8 * Pow2(n + 1) == 16 * Pow2(n);
  }

  /** The place of a column's value among all values the column can have. */
  function Digit(a: Bytes, c: Column): (d: int)
    requires ColumnOk(c) && BytesOk(a) && |a| == c.len
    ensures 0 <= d < Size(c)
  {
    match c.typ
    case KeyInt => IntValue(a) + 0x8000_0000
    case KeyFloat =>
      FloatBounded(a);
      FloatValue(a) + FLOAT_BOUND
    case KeyString =>
      BigEndianBounded(a);
      BigEndian(a)
  }

  function Total(cols: seq<Column>): (n: nat)
    ensures n >= 1
  {
    if cols == [] then 1
    else
      ProductBound(1, 1, Size(cols[0]), Total(cols[1..]));
      Size(cols[0]) * Total(cols[1..])
  }

  /** The place of a key among all keys: its columns' places as the digits of one number. */
  function Rank(a: Bytes, cols: seq<Column>): (r: int)
    requires KeyOk(a, cols)
    ensures 0 <= r < Total(cols)
    decreases |cols|
  {
    if cols == [] then 0
    else
      var n := cols[0].len;
      var d, r := Digit(a[..n], cols[0]), Rank(a[n..], cols[1..]);
      RankBound(d, r, Size(cols[0]), Total(cols[1..]));
      d * Total(cols[1..]) + r
  }

  lemma RankBound(d: int, r: int, s: int, t: int)
    requires 0 <= d < s && 0 <= r < t
    ensures 0 <= d * t + r < s * t
  {
    assert (d + 1) * t <= s * t;
    assert (d + 1) * t == d * t + t;
    assert 0 <= d * t;
  }

  // ---- the comparison is the order of the ranks -----------------------------------------------

  lemma {:induction false} MemCmpIsOrder(a: Bytes, b: Bytes)
    requires BytesOk(a) && BytesOk(b) && |a| == |b|
    ensures MemCmp(a, b) < 0 <==> BigEndian(a) < BigEndian(b)
    ensures MemCmp(a, b) == 0 <==> BigEndian(a) == BigEndian(b)
  {
    if a != [] {
      var n := |a| - 1;
      MemCmpIsOrder(a[..n], b[..n]);
      MemCmpLast(a, b);
    }
  }

  /** The last byte decides only if all before it agree. */
  lemma {:induction false} MemCmpLast(a: Bytes, b: Bytes)
    requires |a| == |b| > 0
    ensures var n := |a| - 1; var c := MemCmp(a[..n], b[..n]);
            MemCmp(a, b) == if c != 0 then c else a[n] - b[n]
  {
    var n := |a| - 1;
    if n == 0 {
      assert MemCmp(a[1..], b[1..]) == 0;
    } else {
      assert a[1..][..n - 1] == a[..n][1..] && b[1..][..n - 1] == b[..n][1..];
      MemCmpLast(a[1..], b[1..]);
    }
  }

  lemma ColumnIsOrder(a: Bytes, b: Bytes, c: Column)
    requires ColumnOk(c) && BytesOk(a) && BytesOk(b) && |a| == |b| == c.len
    ensures CompareColumn(a, b, c) < 0 <==> Digit(a, c) < Digit(b, c)
    ensures CompareColumn(a, b, c) == 0 <==> Digit(a, c) == Digit(b, c)
  {
    if c.typ.KeyString? { MemCmpIsOrder(a, b); }
  }

  lemma DigitDecides(d: int, e: int, r: int, s: int, t: int)
    requires 0 <= r < t && 0 <= s < t
    ensures d < e ==> d * t + r < e * t + s
    ensures d == e ==> (d * t + r < e * t + s <==> r < s)
  {
    if d < e {
      assert (d + 1) * t <= e * t;
      assert (d + 1) * t == d * t + t;
    }
  }

  /** Comparing two keys is comparing their ranks. */
  lemma {:induction false} CompareIsRank(a: Bytes, b: Bytes, cols: seq<Column>)
    requires KeyOk(a, cols) && KeyOk(b, cols)
    ensures IxCompare(a, b, cols) < 0 <==> Rank(a, cols) < Rank(b, cols)
    ensures IxCompare(a, b, cols) == 0 <==> Rank(a, cols) == Rank(b, cols)
    decreases |cols|
  {
    if cols != [] {
      var n, rest := cols[0].len, cols[1..];
      ColumnIsOrder(a[..n], b[..n], cols[0]);
      CompareIsRank(a[n..], b[n..], rest);
      DigitDecides(Digit(a[..n], cols[0]), Digit(b[..n], cols[0]), Rank(a[n..], rest), Rank(b[n..], rest), Total(rest));
      DigitDecides(Digit(b[..n], cols[0]), Digit(a[..n], cols[0]), Rank(b[n..], rest), Rank(a[n..], rest), Total(rest));
    }
  }

  // ---- what the bytes of numbers mean ---------------------------------------------------------

  function LittleEndian(a: Bytes): int {
    if a == [] then 0 else a[0] + 256 * LittleEndian(a[1..])
  }

  /** Each byte of an INT weighs 256 times the one before it. */
  lemma WordIs(a: Bytes)
    requires BytesOk(a) && |a| == 4
    ensures Word(a) == LittleEndian(a)
  {
    assert a[1..][1..] == a[2..] && a[2..][1..] == a[3..] && a[3..][1..] == [];
    assert LittleEndian(a[3..]) == a[3] && LittleEndian(a[2..]) == a[2] + 256 * a[3];
    assert LittleEndian(a[1..]) == a[1] + 256 * LittleEndian(a[2..]);
  }

  lemma MagnitudeStep(e: nat, f: nat, e': nat, f': nat)
    requires e < e' && f < 0x80_0000
    ensures Magnitude(e, f) < Magnitude(e', f')
  {
    ProductBound(0x80_0000, Pow2(e' - 1), 0x80_0000 + f', Pow2(e' - 1));
    if e > 0 {
      PowMono(e, e' - 1);
      assert Pow2(e) == 2 * Pow2(e - 1);
      assert (0x80_0000 + f) * Pow2(e - 1) < 0x100_0000 * Pow2(e - 1);
    } else {
      ProductBound(0x80_0000, 1, 0x80_0000, Pow2(e' - 1));
    }
  }

  lemma MagnitudeWithin(e: nat, f: nat, f': nat)
    requires f < f'
    ensures Magnitude(e, f) < Magnitude(e, f')
  {
    if e > 0 { assert (0x80_0000 + f) * Pow2(e - 1) < (0x80_0000 + f') * Pow2(e - 1); }
  }

  /** The bits of a FLOAT without its sign, read as a number, order the magnitudes. */
  lemma MagnitudeOrder(x: nat, y: nat)
    requires x < 0x8000_0000 && y < 0x8000_0000
    ensures Magnitude(x / 0x80_0000, x % 0x80_0000) < Magnitude(y / 0x80_0000, y % 0x80_0000) <==> x < y
  {
    if x < y {
      MagnitudeLess(x, y);
    } else if y < x {
      MagnitudeLess(y, x);
    }
  }

  lemma MagnitudeLess(x: nat, y: nat)
    requires x < y
    ensures Magnitude(x / 0x80_0000, x % 0x80_0000) < Magnitude(y / 0x80_0000, y % 0x80_0000)
  {
    if x / 0x80_0000 == y / 0x80_0000 {
      MagnitudeWithin(x / 0x80_0000, x % 0x80_0000, y % 0x80_0000);
    } else {
      MagnitudeStep(x / 0x80_0000, x % 0x80_0000, y / 0x80_0000, y % 0x80_0000);
    }
  }

  /** The bits of a FLOAT without its sign. */
  function Bits(a: Bytes): (x: nat)
    requires BytesOk(a) && |a| == 4
    ensures x < 0x8000_0000
  {
    Word(a) % 0x8000_0000
  }

  function OfBits(x: nat): int {
    Magnitude(x / 0x80_0000, x % 0x80_0000)
  }

  lemma LowBits(w: int, q: int, e: int, f: int)
    requires w == (q * 256 + e) * 0x80_0000 + f && 0 <= f < 0x80_0000
    ensures w % 0x80_0000 == f
  {
  }

  lemma FractionIs(w: int)
    ensures w % 0x80_0000 == w % 0x8000_0000 % 0x80_0000
  {
    var q, x := w / 0x8000_0000, w % 0x8000_0000;
    LowBits(w, q, x / 0x80_0000, x % 0x80_0000);
  }

  lemma FloatIs(a: Bytes)
    requires BytesOk(a) && |a| == 4
    ensures FloatValue(a) == if Word(a) < 0x8000_0000 then OfBits(Bits(a)) else -OfBits(Bits(a))
  {
    var w := Word(a);
    FractionIs(w);
    assert Exponent(a) == Bits(a) / 0x80_0000 && Fraction(a) == Bits(a) % 0x80_0000;
  }

  /** FLOATs are ordered by sign, and within a sign by their other bits; the two zeros are equal. */
  lemma FloatOrder(a: Bytes, b: Bytes)
    requires BytesOk(a) && BytesOk(b) && |a| == |b| == 4
    ensures var n, m := Word(a) >= 0x8000_0000, Word(b) >= 0x8000_0000;
            && (!n && !m ==> (FloatValue(a) < FloatValue(b) <==> Bits(a) < Bits(b)))
            && (n && m ==> (FloatValue(a) < FloatValue(b) <==> Bits(b) < Bits(a)))
            && (n && !m ==> FloatValue(a) <= FloatValue(b) && (FloatValue(a) == FloatValue(b) <==> Bits(a) == 0 && Bits(b) == 0))
  {
    FloatIs(a);
    FloatIs(b);
    MagnitudeOrder(Bits(a), Bits(b));
    MagnitudeOrder(Bits(b), Bits(a));
    MagnitudeOrder(0, Bits(a));
    MagnitudeOrder(0, Bits(b));
    assert OfBits(0) == 0;
  }

  /** The next power of two is one exponent up, and one itself has the exponent 127. */
  lemma FloatPowers(a: Bytes, e: nat)
    requires BytesOk(a) && |a| == 4 && 1 <= e < 255 && Word(a) == e * 0x80_0000
    ensures FloatValue(a) == Pow2(e + 22) && (e == 127 ==> FloatValue(a) == Pow2(149))
  {
    FloatIs(a);
    Pow2Sum(23, e - 1);
    TwoTo23();
  }

  lemma {:induction false} Pow2Sum(m: nat, n: nat)
    ensures Pow2(m + n) == Pow2(m) * Pow2(n)
  {
    if m > 0 { Pow2Sum(m - 1, n); }
  }

  lemma TwoTo23()
    ensures Pow2(23) == 0x80_0000
  {
    Pow2Byte(0);
    Pow2Byte(8);
    Pow2Byte(15);
    assert Pow2(15) * 2 == Pow2(16);
  }

  lemma DivideTwice(n: int)
    ensures n / 0x1_0000 == n / 256 / 256 && n / 0x100_0000 == n / 256 / 256 / 256
  {
    var a := n / 256;
    var b := a / 256;
    assert n == b * 0x1_0000 + (a % 256 * 256 + n % 256);
    assert n == b / 256 * 0x100_0000 + (b % 256 * 0x1_0000 + a % 256 * 256 + n % 256);
  }

  /** The four bytes that a literal is given, in planning and in rebinding, read back as it. */
  lemma BytesRead(n: int)
    requires -0x8000_0000 <= n < 0x8000_0000
    ensures BytesOk(IntBytes(n)) && IntValue(IntBytes(n)) == n
  {
    DivideTwice(n);
    var a := n / 256;
    var b := a / 256;
    BytesOf(n, a, b, b / 256, IntBytes(n));
  }

  lemma BytesOf(n: int, a: int, b: int, c: int, s: Bytes)
    requires -0x8000_0000 <= n < 0x8000_0000 && a == n / 256 && b == a / 256 && c == b / 256
    requires s == [n % 256, a % 256, b % 256, c % 256]
    ensures BytesOk(s) && IntValue(s) == n
  {
    assert Word(s) == n - c / 256 * 0x1_0000_0000;
  }
}
