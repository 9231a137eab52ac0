/** The pixel tangent estimator (five neighbouring points). Where exactly one of the two
    cross products of slopes changes sign it blends the knot with one neighbour; everywhere
    else it falls back to the monotone estimator's harmonic mean. */
module Pixel {
  import opened Numerics
  import Monotone

  /** The blend parameter t = 0.5 - (|m / (m - n)| - 0.5) * 0.7 for two slopes of opposite sign. */
  function BlendParameter(m: real, n: real): (t: real)
    requires m * n < 0.0
    ensures 0.15 < t < 0.85
  {
    QuotientInUnitInterval(m, n);
    var q := m / (m - n);
    0.5 - (Abs(q) - 0.5) * 0.7
  }

  /** For slopes of opposite sign, m / (m - n) lies strictly between 0 and 1. */
  lemma QuotientInUnitInterval(m: real, n: real)
    requires m * n < 0.0
    ensures m != n && 0.0 < m / (m - n) < 1.0
  {
    ProductSign(m, n);
    var q := m / (m - n);
    assert q * (m - n) == m;
    if m > 0.0 {
      assert m - n > m;
      MulBelow(q, m - n, m);
    } else {
      assert -(m - n) > -m;
      MulBelow(q, -(m - n), -m);
    }
  }

  /** q * d == x with 0 < x < d forces 0 < q < 1. */
  lemma MulBelow(q: real, d: real, x: real)
    requires 0.0 < x < d && q * d == x
    ensures 0.0 < q < 1.0
  {
    ProductSign(q, d);
    if q >= 1.0 {
      assert (q - 1.0) * d >= 0.0 by { ProductSign(q - 1.0, d); }
    }
  }

  /** The blend's quotient x / (t^3 - 2t^2 + t), with the denominator's factors t (1 - t)^2
      divided out one at a time; all three are positive for t in (0, 1). */
  function DivideByBlendDenominator(x: real, t: real): (r: real)
    requires 0.0 < t < 1.0
    ensures r * t * (1.0 - t) * (1.0 - t) == x
  {
    var a := x / t;
    var b := a / (1.0 - t);
    var c := b / (1.0 - t);
    assert a * t == x;
    assert b * (1.0 - t) == a;
    assert c * (1.0 - t) == b;
    c
  }

  /** Multiplying by the factors t, 1 - t, 1 - t is multiplying by t^3 - 2t^2 + t. */
  lemma ExpandDenominator(r: real, t: real, x: real)
    requires r * t * (1.0 - t) * (1.0 - t) == x
    ensures r * (t * t * t - 2.0 * t * t + t) == x
  {
  }

  /** Dividing by the factors in turn is dividing once by the source's denominator
      t^3 - 2t^2 + t, which does not vanish on (0, 1). */
  lemma DivideByBlendDenominatorIsQuotient(x: real, t: real)
    requires 0.0 < t < 1.0
    ensures t * t * t - 2.0 * t * t + t != 0.0
    ensures DivideByBlendDenominator(x, t) == x / (t * t * t - 2.0 * t * t + t)
  {
    ExpandDenominator(DivideByBlendDenominator(1.0, t), t, 1.0);
    NonZeroFactor(DivideByBlendDenominator(1.0, t), t * t * t - 2.0 * t * t + t);
    ExpandDenominator(DivideByBlendDenominator(x, t), t, x);
    QuotientUnique(DivideByBlendDenominator(x, t), t * t * t - 2.0 * t * t + t, x);
  }

  function Grad(vm2: real, vm1: real, v0: real, vp1: real, vp2: real): real {
    var mm2, mm1, mp1, mp2 := vm1 - vm2, v0 - vm1, vp1 - v0, vp2 - vp1;
    if (mm1 * mp2 < 0.0) != (mp1 * mm2 < 0.0) && mm1 * mp2 < 0.0 then
      var t := BlendParameter(mm1, mp2);
      DivideByBlendDenominator((t * t * t - 3.0 * t + 2.0) * vp1 - t * t * t * v0, t)
    else if (mm1 * mp2 < 0.0) != (mp1 * mm2 < 0.0) && mp1 * mm2 < 0.0 then
      var t := BlendParameter(mp1, mm2);
      -DivideByBlendDenominator((t * t * t - 3.0 * t + 2.0) * vm1 - t * t * t * v0, t)
    else
      Monotone.Grad(vm1, v0, vp1)
  }

  /** Where the two cross products agree in sign, the estimator is the monotone one. */
  lemma GradFallsBackToMonotone(vm2: real, vm1: real, v0: real, vp1: real, vp2: real)
    requires ((v0 - vm1) * (vp2 - vp1) < 0.0) == ((vp1 - v0) * (vm1 - vm2) < 0.0)
    ensures Grad(vm2, vm1, v0, vp1, vp2) == Monotone.Grad(vm1, v0, vp1)
  {
  }

  /** Unlike the other estimators, the blended branch depends on the level of the data and not
      only on its differences: the points 0, 1, 0, 0, 1 get tangent 0 at the middle one, the same
      points lifted by 1 get tangent 4 there. */
  lemma GradDependsOnLevel()
    ensures Grad(0.0, 1.0, 0.0, 0.0, 1.0) == 0.0
    ensures Grad(1.0, 2.0, 1.0, 1.0, 2.0) == 4.0
  {
    assert BlendParameter(-1.0, 1.0) == 0.5;
  }
}
