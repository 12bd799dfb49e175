/**
 * Shared vocabulary for the numeric model: exact reals stand for finite
 * floating-point values, and `Num` adds the two non-finite values that the
 * source produces or filters out (not-a-number and the signed infinities).
 */
module Floats {

  datatype Option<+T> = None | Some(value: T)

  /** The outcome of an operation that may raise an exception of kind `E`. */
  datatype Result<+T, +E> = Ok(value: T) | Err(error: E)

  /** A floating-point value: finite (an exact real), NaN or a signed infinity. */
  datatype Num = Finite(r: real) | NaN | Inf(positive: bool)

  function Abs(x: real): (r: real)
    ensures r >= 0.0
    ensures r == x || r == -x
  {
    if x < 0.0 then -x else x
  }

  /** Sign facts are stated about a named product `q`, which is how the solver uses them best. */
  lemma ProductPositive(a: real, b: real, q: real)
    requires a > 0.0 && b > 0.0 && q == a * b
    ensures q > 0.0
  {
  }

  lemma ProductNonNegative(a: real, b: real, q: real)
    requires a >= 0.0 && b >= 0.0 && q == a * b
    ensures q >= 0.0
  {
    if a > 0.0 && b > 0.0 { ProductPositive(a, b, q); }
  }

  /** The order of non-NaN floats: negative infinity, the finite values, positive infinity. */
  predicate AtMost(x: Num, y: Num)
    requires !x.NaN? && !y.NaN?
  {
    match (x, y)
    case (Inf(p), _) => !p || y == Inf(true)
    case (_, Inf(q)) => q
    case (Finite(a), Finite(b)) => a <= b
  }

  function Negate(x: Num): (r: Num)
    ensures r.Finite? <==> x.Finite?
    ensures x.Finite? ==> r.r == -x.r
  {
    match x
    case Finite(a) => Finite(-a)
    case NaN => NaN
    case Inf(p) => Inf(!p)
  }

  /** IEEE addition; opposite infinities give NaN. */
  function Add(x: Num, y: Num): (r: Num)
    ensures r.Finite? <==> x.Finite? && y.Finite?
    ensures r.Finite? ==> r.r == x.r + y.r
    ensures x.NaN? || y.NaN? ==> r.NaN?
  {
    match (x, y)
    case (NaN, _) => NaN
    case (_, NaN) => NaN
    case (Finite(a), Finite(b)) => Finite(a + b)
    case (Inf(p), Inf(q)) => if p == q then Inf(p) else NaN
    case (Inf(p), _) => Inf(p)
    case (_, Inf(q)) => Inf(q)
  }

  function Sub(x: Num, y: Num): (r: Num)
    ensures r.Finite? <==> x.Finite? && y.Finite?
    ensures r.Finite? ==> r.r == x.r - y.r
    ensures x.NaN? || y.NaN? ==> r.NaN?
  {
    Add(x, Negate(y))
  }

  /** IEEE multiplication; zero times an infinity gives NaN. */
  function Mul(x: Num, y: Num): (r: Num)
    ensures r.Finite? <==> x.Finite? && y.Finite?
    ensures r.Finite? ==> r.r == x.r * y.r
    ensures x.NaN? || y.NaN? ==> r.NaN?
  {
    match (x, y)
    case (NaN, _) => NaN
    case (_, NaN) => NaN
    case (Finite(a), Finite(b)) => Finite(a * b)
    case (Inf(p), Inf(q)) => Inf(p == q)
    case (Inf(p), Finite(b)) => if b == 0.0 then NaN else Inf(p == (b > 0.0))
    case (Finite(a), Inf(q)) => if a == 0.0 then NaN else Inf(q == (a > 0.0))
  }

  /**
   * IEEE division with a zero divisor read as positive zero: a non-zero value
   * over zero is an infinity, zero over zero and infinity over infinity are NaN.
   */
  function Div(x: Num, y: Num): (r: Num)
    ensures x.Finite? && y.Finite? ==> (r.Finite? <==> y.r != 0.0)
    ensures x.Finite? && y.Finite? && r.Finite? ==> r.r == x.r / y.r
    ensures x.NaN? || y.NaN? ==> r.NaN?
    ensures x.Finite? && y == Finite(0.0) ==> (r.NaN? <==> x.r == 0.0)
  {
    match (x, y)
    case (NaN, _) => NaN
    case (_, NaN) => NaN
    case (Finite(a), Finite(b)) =>
      if b != 0.0 then Finite(a / b) else if a == 0.0 then NaN else Inf(a > 0.0)
    case (Finite(_), Inf(_)) => Finite(0.0)
    case (Inf(_), Inf(_)) => NaN
    case (Inf(p), Finite(b)) => Inf(p == (b >= 0.0))
  }
}
