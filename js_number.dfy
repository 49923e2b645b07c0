/**
 * JavaScript numbers as the engine sees them: NaN, the two infinities and
 * finite values. Finite values are exact reals: IEEE-754 rounding, overflow
 * of finite arithmetic and the sign of zero are not modelled. The operations
 * follow the IEEE special cases (NaN poisons everything, Infinity - Infinity
 * is NaN, every comparison with NaN is false).
 */
module JsNumber {

  datatype Num = NaN | NegInf | PosInf | Finite(v: real)

  /** Number.MAX_VALUE, (2^53 - 1) * 2^971. */
  const MaxValue: real := 179769313486231570814527423731704356798070567525844996598917476803157260780028538760589558632766878171540458953514382464234321326889464182768467546703537516986049910576551282076245490090389328944075868508455133942304583236903222948165808559332123348274797826204144723168738177180919299881250404026184124858368.0

  /** `a < b` */
  predicate Lt(a: Num, b: Num)
  {
    match (a, b)
    case (Finite(x), Finite(y)) => x < y
    case (NegInf, Finite(_)) => true
    case (NegInf, PosInf) => true
    case (Finite(_), PosInf) => true
    case _ => false
  }

  /** `a > b` */
  predicate Gt(a: Num, b: Num) { Lt(b, a) }

  /** `a <= b`: for JS numbers this is `a < b || a === b`, false with NaN. */
  predicate Le(a: Num, b: Num) { a != NaN && b != NaN && (Lt(a, b) || a == b) }

  /** `a >= b` */
  predicate Ge(a: Num, b: Num) { Le(b, a) }

  function Neg(a: Num): Num
  {
    match a
    case NaN => NaN
    case NegInf => PosInf
    case PosInf => NegInf
    case Finite(x) => Finite(-x)
  }

  /** `a + b` */
  function Add(a: Num, b: Num): Num
  {
    match (a, b)
    case (NaN, _) => NaN
    case (_, NaN) => NaN
    case (PosInf, NegInf) => NaN
    case (NegInf, PosInf) => NaN
    case (PosInf, _) => PosInf
    case (_, PosInf) => PosInf
    case (NegInf, _) => NegInf
    case (_, NegInf) => NegInf
    case (Finite(x), Finite(y)) => Finite(x + y)
  }

  /** `a - b` */
  function Sub(a: Num, b: Num): Num { Add(a, Neg(b)) }

  /** Sign of a non-NaN number: -1, 0 or 1. */
  function Sign(a: Num): int
    requires a != NaN
  {
    match a
    case NegInf => -1
    case PosInf => 1
    case Finite(x) => if x < 0.0 then -1 else if x > 0.0 then 1 else 0
  }

  function InfOfSign(s: int): Num
    requires s != 0
  {
    if s < 0 then NegInf else PosInf
  }

  /** `a * b` */
  function Mul(a: Num, b: Num): Num
  {
    match (a, b)
    case (Finite(x), Finite(y)) => Finite(x * y)
    case (NaN, _) => NaN
    case (_, NaN) => NaN
    case _ =>
      if Sign(a) == 0 || Sign(b) == 0 then NaN else InfOfSign(Sign(a) * Sign(b))
  }

  /** `a / b`; a zero divisor is taken as +0. */
  function Div(a: Num, b: Num): Num
  {
    match (a, b)
    case (NaN, _) => NaN
    case (_, NaN) => NaN
    case (Finite(x), Finite(y)) =>
      if y != 0.0 then Finite(x / y)
      else if x == 0.0 then NaN
      else InfOfSign(Sign(a))
    case (Finite(_), _) => Finite(0.0)
    case (_, Finite(y)) => InfOfSign(if y < 0.0 then -Sign(a) else Sign(a))
    case _ => NaN
  }

  /** Math.floor */
  function Floor(a: Num): Num
  {
    if a.Finite? then Finite(a.v.Floor as real) else a
  }

  /** Math.max of two arguments */
  function MathMax(a: Num, b: Num): Num
  {
    if a == NaN || b == NaN then NaN else if Lt(a, b) then b else a
  }

  /** Math.min of two arguments */
  function MathMin(a: Num, b: Num): Num
  {
    if a == NaN || b == NaN then NaN else if Lt(b, a) then b else a
  }

  /** Number.isInteger */
  predicate IsInteger(a: Num)
  {
    a.Finite? && a.v.Floor as real == a.v
  }

  /** `m[i]` on a typed array of numbers: a read outside the array is undefined, which arithmetic and comparisons treat as NaN. */
  function At(m: seq<Num>, i: int): Num
  {
    if 0 <= i < |m| then m[i] else NaN
  }

  /** `>` is transitive on JS numbers (NaN is never greater than anything). */
  lemma GtTransitive(a: Num, b: Num, c: Num)
    requires Gt(a, b) && Gt(b, c)
    ensures Gt(a, c)
  {
  }
}
