/** Values, rows by column name, and the meaning of conditions. */
module Conditions {

  const NULL_INT: int := -0x8000_0000

  datatype Option<T> = None | Some(value: T)

  datatype ColType = TypeInt | TypeFloat | TypeString

  /** A stored value. Strings carry their bytes up to the padding; numbers are exact. */
  datatype Value = IntV(i: int) | FloatV(r: real) | StrV(s: seq<int>) {
    function Type(): ColType {
      match this
      case IntV(_) => TypeInt
      case FloatV(_) => TypeFloat
      case StrV(_) => TypeString
    }
  }

  datatype Col = Col(tab: string, name: string)

  type Row = map<Col, Value>

  datatype CompOp =
    | OpEq | OpNe | OpLt | OpGt | OpLe | OpGe
    | OpIsNull | OpIsNotNull
    | OpLike | OpNotLike
    | OpBetween | OpNotBetween
    | OpIn | OpNotIn
    | OpOr | OpNot

  datatype Condition = Condition(lhs: Col, op: CompOp, isRhsVal: bool, rhs: Col,
                                 rhsVal: Value, rhsVal2: Value, inValues: seq<Value>,
                                 isArith: bool, children: seq<Condition>)

  // ---- comparison of values -----------------------------------------------

  function CompareBytes(a: seq<int>, b: seq<int>): int {
    if a == [] && b == [] then 0
    else if a == [] then -1
    else if b == [] then 1
    else if a[0] < b[0] then -1
    else if a[0] > b[0] then 1
    else CompareBytes(a[1..], b[1..])
  }

  /** Three-way comparison of two values of one type. */
  function Compare(a: Value, b: Value): int
    requires a.Type() == b.Type()
  {
    match a
    case IntV(x) => if x < b.i then -1 else if x > b.i then 1 else 0
    case FloatV(x) => if x < b.r then -1 else if x > b.r then 1 else 0
    case StrV(x) => CompareBytes(x, b.s)
  }

  lemma {:induction false} CompareBytesOrder(a: seq<int>, b: seq<int>, c: seq<int>)
    ensures CompareBytes(a, b) == 0 <==> a == b
    ensures CompareBytes(a, b) == -CompareBytes(b, a)
    ensures CompareBytes(a, b) <= 0 && CompareBytes(b, c) <= 0 ==> CompareBytes(a, c) <= 0
    ensures CompareBytes(a, b) <= 0 && CompareBytes(b, c) < 0 ==> CompareBytes(a, c) < 0
    ensures CompareBytes(a, b) < 0 && CompareBytes(b, c) <= 0 ==> CompareBytes(a, c) < 0
  {
    if a != [] && b != [] {
      CompareBytesOrder(a[1..], b[1..], if c == [] then [] else c[1..]);
      if a[0] == b[0] && a[1..] == b[1..] { assert a == [a[0]] + a[1..] && b == [b[0]] + b[1..]; }
    }
  }

  /** On values of one type the comparison is a total order with equality as its zero. */
  lemma CompareOrder(a: Value, b: Value, c: Value)
    requires a.Type() == b.Type() == c.Type()
    ensures Compare(a, b) == 0 <==> a == b
    ensures Compare(a, b) < 0 <==> Compare(b, a) > 0
    ensures Compare(a, b) <= 0 && Compare(b, c) <= 0 ==> Compare(a, c) <= 0
    ensures Compare(a, b) <= 0 && Compare(b, c) < 0 ==> Compare(a, c) < 0
    ensures Compare(a, b) < 0 && Compare(b, c) <= 0 ==> Compare(a, c) < 0
  {
    if a.StrV? { CompareBytesOrder(a.s, b.s, c.s); }
  }

  /** Conversion to int drops the fraction. */
  function Truncate(r: real): int {
    if r >= 0.0 then r.Floor else -((-r).Floor)
  }

  /** The four bytes of an INT, the least significant first. */
  function IntBytes(n: int): seq<int> {
    [n % 256, n / 256 % 256, n / 0x1_0000 % 256, n / 0x100_0000 % 256]
  }

  predicate IsNull(v: Value) {
    match v
    case IntV(x) => x == NULL_INT
    case FloatV(x) => x == 0.0
    case StrV(x) => x == []
  }

  predicate IsComparison(op: CompOp) {
    op.OpEq? || op.OpNe? || op.OpLt? || op.OpGt? || op.OpLe? || op.OpGe?
  }

  predicate Holds(op: CompOp, cmp: int) {
    match op
    case OpEq => cmp == 0
    case OpNe => cmp != 0
    case OpLt => cmp < 0
    case OpGt => cmp > 0
    case OpLe => cmp <= 0
    case OpGe => cmp >= 0
    case _ => false
  }

  // ---- SQL LIKE -----------------------------------------------------------

  const PERCENT: int := 37
  const UNDERSCORE: int := 95

  /** The matcher: `%` first tries to end, then to swallow one more character. */
  predicate LikeMatch(s: seq<int>, p: seq<int>)
    decreases |s| + |p|
  {
    if p == [] then s == []
    else if p[0] == PERCENT then
      LikeMatch(s, p[1..]) || (s != [] && LikeMatch(s[1..], p))
    else
      s != [] && (p[0] == UNDERSCORE || p[0] == s[0]) && LikeMatch(s[1..], p[1..])
  }
}
