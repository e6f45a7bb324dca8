/** Sums and products of reals shared by the numeric parts. */
module RealSums {

  function Sum(xs: seq<real>): real {
    if xs == [] then 0.0 else xs[0] + Sum(xs[1..])
  }

  /** A product that proofs may treat as one term. */
  function Times(x: real, y: real): real { x * y }

  lemma {:induction false} TimesPositive(x: real, y: real)
    requires x > 0.0 && y > 0.0
    ensures Times(x, y) > 0.0
  {
  }
}
