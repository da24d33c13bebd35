/**
 * A stand-in for `f64`: the extended real line with a not-a-number value.
 * Operations are exact (no rounding) and there is no signed zero; what is
 * kept from IEEE 754 is that every operation is total, that division by zero
 * gives an infinity or NaN rather than an error, and that NaN compares false
 * with everything, itself included.
 */
module Floats {

  datatype Float = Finite(r: real) | Infinity(negative: bool) | NaN

  function Neg(x: Float): Float {
    match x
    case Finite(r) => Finite(-r)
    case Infinity(n) => Infinity(!n)
    case NaN => NaN
  }

  function Add(x: Float, y: Float): Float {
    match (x, y)
    case (NaN, _) => NaN
    case (_, NaN) => NaN
    case (Infinity(a), Infinity(b)) => if a == b then x else NaN
    case (Infinity(_), _) => x
    case (_, Infinity(_)) => y
    case (Finite(a), Finite(b)) => Finite(a + b)
  }

  function Sub(x: Float, y: Float): Float {
    Add(x, Neg(y))
  }

  function Mul(x: Float, y: Float): Float {
    match (x, y)
    case (NaN, _) => NaN
    case (_, NaN) => NaN
    case (Infinity(a), Infinity(b)) => Infinity(a != b)
    case (Infinity(a), Finite(b)) => if b == 0.0 then NaN else Infinity(a != (b < 0.0))
    case (Finite(a), Infinity(b)) => if a == 0.0 then NaN else Infinity(b != (a < 0.0))
    case (Finite(a), Finite(b)) => Finite(a * b)
  }

  function Div(x: Float, y: Float): Float {
    match (x, y)
    case (NaN, _) => NaN
    case (_, NaN) => NaN
    case (Infinity(_), Infinity(_)) => NaN
    case (Infinity(a), Finite(b)) => Infinity(a != (b < 0.0))
    case (Finite(_), Infinity(_)) => Finite(0.0)
    case (Finite(a), Finite(b)) =>
      if b != 0.0 then Finite(a / b)
      else if a == 0.0 then NaN
      else Infinity(a < 0.0)
  }

  /** IEEE equality: NaN equals nothing. */
  predicate Same(x: Float, y: Float) {
    !x.NaN? && x == y
  }

  predicate Less(x: Float, y: Float) {
    match (x, y)
    case (NaN, _) => false
    case (_, NaN) => false
    case (Infinity(a), Infinity(b)) => a && !b
    case (Infinity(a), Finite(_)) => a
    case (Finite(_), Infinity(b)) => !b
    case (Finite(a), Finite(b)) => a < b
  }

  predicate LessOrSame(x: Float, y: Float) {
    Less(x, y) || Same(x, y)
  }
}
