/** The chi-square distance of two histograms, before rounding, over exact reals. */
module ChiSquare {
  import opened RealSums

  type Histogram = seq<nat>

  function Total(h: Histogram): nat {
    if h == [] then 0 else h[0] + Total(h[1..])
  }

  /** `max(1.0, float(hist.sum()))` */
  function Mass(h: Histogram): (r: real)
    ensures r >= 1.0
  {
    if Total(h) < 1 then 1.0 else Total(h) as real
  }

  function Divided(h: Histogram, mass: real): (r: seq<real>)
    requires mass >= 1.0
    ensures |r| == |h|
  {
    seq(|h|, i requires 0 <= i < |h| => h[i] as real / mass)
  }

  function Normalised(h: Histogram): (r: seq<real>)
    ensures |r| == |h|
  {
    Divided(h, Mass(h))
  }

  /** One bin: zero where both sides are empty, `np.divide(..., where=denom > 0)`. */
  function Term(p: real, q: real): real {
    if p + q > 0.0 then (p - q) * (p - q) / (p + q) else 0.0
  }

  function SumTerms(ps: seq<real>, qs: seq<real>): real
    requires |ps| == |qs|
  {
    if ps == [] then 0.0 else Term(ps[0], qs[0]) + SumTerms(ps[1..], qs[1..])
  }

  function Distance(a: Histogram, b: Histogram): real
    requires |a| == |b|
  {
    SumTerms(Normalised(a), Normalised(b)) / 2.0
  }

  predicate NonNegative(xs: seq<real>) {
    forall i | 0 <= i < |xs| :: xs[i] >= 0.0
  }

  // -------------------------------------------------------------------------
  // One bin
  // -------------------------------------------------------------------------

  lemma {:induction false} TermSymmetric(p: real, q: real)
    ensures Term(p, q) == Term(q, p)
  {
    assert (p - q) * (p - q) == (q - p) * (q - p);
  }

  /** A bin contributes between zero and its joint mass; nothing exactly when both sides
      agree, all of it exactly when one side is empty. */
  lemma {:induction false} TermBounds(p: real, q: real)
    requires p >= 0.0 && q >= 0.0
    ensures 0.0 <= Term(p, q) <= p + q
    ensures Term(p, q) == 0.0 <==> p == q
    ensures Term(p, q) == p + q <==> p == 0.0 || q == 0.0
  {
    if p + q > 0.0 {
      var t := Term(p, q);
      assert t * (p + q) == (p - q) * (p - q);
      Signs(p, q, t);
    }
  }

  lemma {:induction false} Signs(p: real, q: real, t: real)
    requires p >= 0.0 && q >= 0.0 && p + q > 0.0 && t * (p + q) == (p - q) * (p - q)
    ensures 0.0 <= t <= p + q
    ensures t == 0.0 <==> p == q
    ensures t == p + q <==> p == 0.0 || q == 0.0
  {
    var s := p + q;
    if p > q { TimesPositive(p - q, p - q); }
    if p < q { TimesPositive(q - p, q - p); assert Times(q - p, q - p) == (p - q) * (p - q); }
    if t < 0.0 { TimesPositive(-t, s); assert Times(-t, s) == -(t * s); }
    if t > 0.0 { TimesPositive(t, s); }
    // the rest of the joint mass is 4pq / (p + q)
    assert (s - t) * s == 4.0 * (p * q) by {
      assert s * s - (p - q) * (p - q) == 4.0 * (p * q);
    }
    if s - t > 0.0 { TimesPositive(s - t, s); }
    if s - t < 0.0 { TimesPositive(t - s, s); assert Times(t - s, s) == -((s - t) * s); }
    if p > 0.0 && q > 0.0 { TimesPositive(p, q); }
  }

  /** Half the harmonic mean of two masses. */
  function Harmonic(p: real, q: real): real {
    if p + q > 0.0 then p * q / (p + q) else 0.0
  }

  /** What a bin contributes is its joint mass less twice the harmonic mean of the sides. */
  lemma {:induction false} TermIsHarmonic(p: real, q: real)
    requires p >= 0.0 && q >= 0.0
    ensures Term(p, q) == p + q - 4.0 * Harmonic(p, q)
  {
    var s := p + q;
    if s > 0.0 {
      var t, h := Term(p, q), Harmonic(p, q);
      assert t * s == (p - q) * (p - q) && h * s == p * q;
      assert (s - 4.0 * h) * s == s * s - 4.0 * (h * s);
      assert s * s - 4.0 * (p * q) == (p - q) * (p - q);
      assert (t - (s - 4.0 * h)) * s == 0.0;
    }
  }

  // -------------------------------------------------------------------------
  // All bins
  // -------------------------------------------------------------------------

  predicate Disjoint(ps: seq<real>, qs: seq<real>)
    requires |ps| == |qs|
  {
    forall i | 0 <= i < |ps| :: ps[i] == 0.0 || qs[i] == 0.0
  }

  lemma {:induction false} SumSymmetric(ps: seq<real>, qs: seq<real>)
    requires |ps| == |qs|
    ensures SumTerms(ps, qs) == SumTerms(qs, ps)
  {
    if ps != [] {
      TermSymmetric(ps[0], qs[0]);
      SumSymmetric(ps[1..], qs[1..]);
    }
  }

  lemma {:induction false} SumBounds(ps: seq<real>, qs: seq<real>)
    requires |ps| == |qs| && NonNegative(ps) && NonNegative(qs)
    ensures 0.0 <= SumTerms(ps, qs) <= Sum(ps) + Sum(qs)
    ensures SumTerms(ps, qs) == 0.0 <==> ps == qs
    ensures SumTerms(ps, qs) == Sum(ps) + Sum(qs) <==> Disjoint(ps, qs)
  {
    if ps != [] {
      var p, q, ps', qs' := ps[0], qs[0], ps[1..], qs[1..];
      TermBounds(p, q);
      SumBounds(ps', qs');
      assert ps == [p] + ps' && qs == [q] + qs';
      DisjointCons(ps, qs);
    }
  }

  lemma {:induction false} DisjointCons(ps: seq<real>, qs: seq<real>)
    requires |ps| == |qs| && ps != []
    ensures Disjoint(ps, qs) <==> (ps[0] == 0.0 || qs[0] == 0.0) && Disjoint(ps[1..], qs[1..])
  {
    if (ps[0] == 0.0 || qs[0] == 0.0) && Disjoint(ps[1..], qs[1..]) {
      forall i | 0 <= i < |ps| ensures ps[i] == 0.0 || qs[i] == 0.0 {
        if i > 0 { assert ps[1..][i - 1] == ps[i] && qs[1..][i - 1] == qs[i]; }
      }
    }
  }

  lemma {:induction false} DividedSum(h: Histogram, mass: real)
    requires mass >= 1.0
    ensures Sum(Divided(h, mass)) == Total(h) as real / mass && NonNegative(Divided(h, mass))
  {
    if h != [] {
      DividedSum(h[1..], mass);
      assert Divided(h, mass)[1..] == Divided(h[1..], mass);
      SumOfQuotients(h[0] as real, Total(h[1..]) as real, mass);
    }
  }

  lemma {:induction false} SumOfQuotients(x: real, y: real, m: real)
    requires m >= 1.0
    ensures x / m + y / m == (x + y) / m
    ensures x >= 0.0 ==> x / m >= 0.0
  {
  }

  lemma {:induction false} NormalisedSum(h: Histogram)
    ensures NonNegative(Normalised(h)) && Sum(Normalised(h)) == if Total(h) == 0 then 0.0 else 1.0
  {
    DividedSum(h, Mass(h));
    if Total(h) > 0 {
      assert Mass(h) == Total(h) as real;
      Cancel(Mass(h));
    }
  }

  lemma {:induction false} Cancel(m: real)
    requires m >= 1.0
    ensures m / m == 1.0
  {
  }

  /** For histograms of equal length the distance is symmetric and lies in [0, 1]; for
      non-empty ones it is zero exactly when the normalised histograms are equal and one
      exactly when no bin holds mass on both sides. */
  lemma {:induction false} DistanceLaws(a: Histogram, b: Histogram)
    requires |a| == |b|
    ensures Distance(a, b) == Distance(b, a)
    ensures 0.0 <= Distance(a, b) <= 1.0
    ensures Distance(a, b) == 0.0 <==> Normalised(a) == Normalised(b)
    ensures Total(a) > 0 && Total(b) > 0 ==> (Distance(a, b) == 1.0 <==> Disjoint(Normalised(a), Normalised(b)))
  {
    SumSymmetric(Normalised(a), Normalised(b));
    NormalisedSum(a);
    NormalisedSum(b);
    SumBounds(Normalised(a), Normalised(b));
  }

  function SumHarmonic(ps: seq<real>, qs: seq<real>): real
    requires |ps| == |qs|
  {
    if ps == [] then 0.0 else Harmonic(ps[0], qs[0]) + SumHarmonic(ps[1..], qs[1..])
  }

  lemma {:induction false} SumIsHarmonic(ps: seq<real>, qs: seq<real>)
    requires |ps| == |qs| && NonNegative(ps) && NonNegative(qs)
    ensures SumTerms(ps, qs) == Sum(ps) + Sum(qs) - 4.0 * SumHarmonic(ps, qs)
  {
    if ps != [] {
      TermIsHarmonic(ps[0], qs[0]);
      SumIsHarmonic(ps[1..], qs[1..]);
    }
  }

  /** The distance of non-empty histograms is one less the sum of the harmonic means of the
      normalised bins. */
  lemma {:induction false} DistanceIsHarmonic(a: Histogram, b: Histogram)
    requires |a| == |b| && Total(a) > 0 && Total(b) > 0
    ensures Distance(a, b) == 1.0 - 2.0 * SumHarmonic(Normalised(a), Normalised(b))
  {
    NormalisedSum(a);
    NormalisedSum(b);
    SumIsHarmonic(Normalised(a), Normalised(b));
  }

  /** Equal normalised histograms are proportional ones. */
  lemma {:induction false} ZeroIsProportional(a: Histogram, b: Histogram)
    requires |a| == |b| && Total(a) > 0 && Total(b) > 0
    ensures Distance(a, b) == 0.0 <==> forall i | 0 <= i < |a| :: a[i] * Total(b) == b[i] * Total(a)
  {
    DistanceLaws(a, b);
    forall i | 0 <= i < |a|
      ensures Normalised(a)[i] == Normalised(b)[i] <==> a[i] * Total(b) == b[i] * Total(a)
    {
      CrossMultiply(a[i], Total(a), b[i], Total(b));
    }
  }

  lemma {:induction false} CrossMultiply(x: nat, m: nat, y: nat, n: nat)
    requires m > 0 && n > 0
    ensures x as real / m as real == y as real / n as real <==> x * n == y * m
  {
    var p, q := x as real / m as real, y as real / n as real;
    assert p * m as real == x as real && q * n as real == y as real;
    assert (x * n) as real == x as real * n as real && (y * m) as real == y as real * m as real;
    assert x as real * n as real == p * (m as real * n as real);
    assert y as real * m as real == q * (m as real * n as real);
    var mn := m as real * n as real;
    TimesPositive(m as real, n as real);
    if p > q { TimesPositive(p - q, mn); }
    if p < q { TimesPositive(q - p, mn); }
  }
}
