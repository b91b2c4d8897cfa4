/** The values the emitted kernels compute with: real numbers and the float
    minus infinity the kernels start their maxima from. `Bad` stands for every
    other non-finite float (NaN, plus infinity); the theorems about the kernels
    show that it never reaches a result. Rounding is not modelled. */
module ExtendedReal {

  datatype Flt = NegInf | Fin(v: real) | Bad

  function FMax(a: Flt, b: Flt): Flt {
    match (a, b)
    case (Bad, _) => Bad
    case (_, Bad) => Bad
    case (NegInf, _) => b
    case (_, NegInf) => a
    case (Fin(x), Fin(y)) => Fin(RMax(x, y))
  }

  function FAdd(a: Flt, b: Flt): Flt {
    match (a, b)
    case (Fin(x), Fin(y)) => Fin(x + y)
    case (NegInf, Fin(_)) => NegInf
    case (Fin(_), NegInf) => NegInf
    case (NegInf, NegInf) => NegInf
    case _ => Bad
  }

  // -inf - -inf is NaN, and x - -inf is plus infinity.
  function FSub(a: Flt, b: Flt): Flt {
    match (a, b)
    case (Fin(x), Fin(y)) => Fin(x - y)
    case (NegInf, Fin(_)) => NegInf
    case _ => Bad
  }

  function FMul(a: Flt, b: Flt): Flt {
    match (a, b)
    case (Fin(x), Fin(y)) => Fin(x * y)
    case _ => Bad
  }

  function FDiv(a: Flt, b: Flt): Flt {
    match (a, b)
    case (Fin(x), Fin(y)) => if y == 0.0 then Bad else Fin(x / y)
    case _ => Bad
  }

  // exp(-inf) is 0.
  function FExp(e: real -> real, a: Flt): Flt {
    match a
    case NegInf => Fin(0.0)
    case Fin(x) => Fin(e(x))
    case Bad => Bad
  }

  function RMax(x: real, y: real): real {
    if x < y then y else x
  }

  /** What the kernels need of the exponential: positive, and turning sums into products. */
  ghost predicate IsExp(e: real -> real) {
    && (forall x :: ExpPositiveAt(e, x))
    && (forall x, y :: ExpAddsAt(e, x, y))
  }

  ghost predicate ExpPositiveAt(e: real -> real, x: real) {
    e(x) > 0.0
  }

  ghost predicate ExpAddsAt(e: real -> real, x: real, y: real) {
    e(x + y) == e(x) * e(y)
  }

  lemma ExpPositive(e: real -> real, x: real)
    requires IsExp(e)
    ensures e(x) > 0.0
  {
    assert ExpPositiveAt(e, x);
  }

  lemma ExpAdds(e: real -> real, x: real, y: real)
    requires IsExp(e)
    ensures e(x + y) == e(x) * e(y)
  {
    assert ExpAddsAt(e, x, y);
  }
}
