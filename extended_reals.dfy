/** The reals extended with the two infinities, for the values a Python float
    takes in the distance fold: `min_dist` starts at `float('inf')`, and a
    negated infinity is `-inf`. */
module ExtendedReals {
  import opened Geometry

  datatype ExtReal = Finite(r: real) | PosInf | NegInf

  /** Python's `a < b` on floats, restricted to non-NaN values. */
  predicate Less(a: ExtReal, b: ExtReal) {
    match (a, b)
    case (NegInf, NegInf) => false
    case (NegInf, _) => true
    case (Finite(u), Finite(v)) => u < v
    case (Finite(_), PosInf) => true
    case (_, _) => false
  }

  predicate LessEq(a: ExtReal, b: ExtReal) {
    a == b || Less(a, b)
  }

  /** Unary minus on floats: `-x`. */
  function Neg(a: ExtReal): (n: ExtReal)
    ensures n.Finite? <==> a.Finite?
    ensures a.Finite? ==> n == Finite(-a.r)
    ensures Less(a, Finite(0.0)) <==> Less(Finite(0.0), n)
  {
    match a
    case Finite(u) => Finite(-u)
    case PosInf => NegInf
    case NegInf => PosInf
  }

  /** `abs(x)` on floats, with `Abs` on the finite values. */
  function Magnitude(a: ExtReal): ExtReal {
    match a
    case Finite(u) => Finite(Abs(u))
    case _ => PosInf
  }

  /** A value that can be a distance: a non-negative real or `+inf`. */
  predicate IsDistance(a: ExtReal) {
    (a.Finite? && a.r >= 0.0) || a.PosInf?
  }
}
