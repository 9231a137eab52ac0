/** Akima's tangent estimator (five neighbouring points): a weighted mean of the two slopes
    next to the knot, each weighted by how much the slopes on the far side change. */
module Akima {
  import opened Numerics

  function Grad(vm2: real, vm1: real, v0: real, vp1: real, vp2: real): real {
    SlopeGrad(vm1 - vm2, v0 - vm1, vp1 - v0, vp2 - vp1)
  }

  /** The estimator on the four slopes mm2, mm1 (left of the knot) and mp1, mp2 (right of it),
      with the short circuits that avoid a zero denominator. */
  function SlopeGrad(mm2: real, mm1: real, mp1: real, mp2: real): real {
    if mm1 == mp1 then mm1
    else if mm2 == mm1 && mp1 == mp2 then 0.5 * (mm1 + mp1)
    else if mm1 == mm2 then mm1
    else if mp1 == mp2 then mp1
    else WeightedSlope(mm2, mm1, mp1, mp2)
  }

  /** Akima's weighted mean of the slopes mm1 and mp1, where its weights do not both vanish. */
  function WeightedSlope(mm2: real, mm1: real, mp1: real, mp2: real): real
    requires Abs(mm2 - mm1) + Abs(mp1 - mp2) > 0.0
  {
    WeightedMean(mp1, mm1, Abs(mm2 - mm1), Abs(mp1 - mp2))
  }

  /** (x * wx + y * wy) / (wx + wy). */
  function WeightedMean(x: real, y: real, wx: real, wy: real): real
    requires wx + wy != 0.0
  {
    (x * wx + y * wy) / (wx + wy)
  }

  lemma MulSign(p: real, w: real)
    requires w > 0.0
    ensures p * w >= 0.0 <==> p >= 0.0
    ensures p * w <= 0.0 <==> p <= 0.0
  {
    if p > 0.0 {
      assert p * w > 0.0;
    } else if p < 0.0 {
      assert (-p) * w > 0.0;
    }
  }

  /** A mean with non-negative weights lies between the two values. */
  lemma WeightedMeanBetween(x: real, y: real, wx: real, wy: real)
    requires wx >= 0.0 && wy >= 0.0 && wx + wy > 0.0
    ensures Min(x, y) <= WeightedMean(x, y, wx, wy) <= Max(x, y)
  {
    var m := WeightedMean(x, y, wx, wy);
    assert (m - x) * (wx + wy) == (y - x) * wy;
    assert (m - y) * (wx + wy) == (x - y) * wx;
    if x <= y {
      MulNonNegative(y - x, wy);
      MulNonNegative(y - x, wx);
      assert (x - y) * wx == -((y - x) * wx);
    } else {
      MulNonNegative(x - y, wx);
      MulNonNegative(x - y, wy);
      assert (y - x) * wy == -((x - y) * wy);
    }
    MulSign(m - x, wx + wy);
    MulSign(m - y, wx + wy);
  }

  /** A mean in which one weight vanishes is the other value; a mean of equal values is that value. */
  lemma WeightedMeanDegenerate(x: real, y: real, wx: real, wy: real)
    requires wx >= 0.0 && wy >= 0.0 && wx + wy > 0.0
    ensures wy == 0.0 ==> WeightedMean(x, y, wx, wy) == x
    ensures wx == 0.0 ==> WeightedMean(x, y, wx, wy) == y
    ensures x == y ==> WeightedMean(x, y, wx, wy) == x
  {
    var m := WeightedMean(x, y, wx, wy);
    assert m * (wx + wy) == x * wx + y * wy;
    if x == y {
      assert (m - x) * (wx + wy) == 0.0;
    }
  }

  /** The short circuits only guard the division: wherever Akima's weights do not both vanish,
      the estimator returns exactly the weighted mean. */
  lemma SlopeGradIsWeightedSlope(mm2: real, mm1: real, mp1: real, mp2: real)
    requires Abs(mm2 - mm1) + Abs(mp1 - mp2) > 0.0
    ensures SlopeGrad(mm2, mm1, mp1, mp2) == WeightedSlope(mm2, mm1, mp1, mp2)
  {
    WeightedMeanDegenerate(mp1, mm1, Abs(mm2 - mm1), Abs(mp1 - mp2));
  }

  /** Where both sides are straight lines the tangent is the mean of their slopes. */
  lemma GradBetweenTwoLines(vm2: real, vm1: real, v0: real, vp1: real, vp2: real)
    requires vm1 - vm2 == v0 - vm1 && vp1 - v0 == vp2 - vp1
    ensures Grad(vm2, vm1, v0, vp1, vp2) == 0.5 * ((v0 - vm1) + (vp1 - v0))
  {
  }

  /** Wherever the weights do not both vanish, `Grad` is Akima's weighted mean. */
  lemma GradIsWeightedSlope(vm2: real, vm1: real, v0: real, vp1: real, vp2: real)
    requires Abs((vm1 - vm2) - (v0 - vm1)) + Abs((vp1 - v0) - (vp2 - vp1)) > 0.0
    ensures Grad(vm2, vm1, v0, vp1, vp2) == WeightedSlope(vm1 - vm2, v0 - vm1, vp1 - v0, vp2 - vp1)
  {
    SlopeGradIsWeightedSlope(vm1 - vm2, v0 - vm1, vp1 - v0, vp2 - vp1);
  }

  lemma SlopeGradBetween(mm2: real, mm1: real, mp1: real, mp2: real)
    ensures Min(mm1, mp1) <= SlopeGrad(mm2, mm1, mp1, mp2) <= Max(mm1, mp1)
  {
    if mm1 != mp1 && !(mm2 == mm1 && mp1 == mp2) && mm1 != mm2 && mp1 != mp2 {
      WeightedMeanBetween(mp1, mm1, Abs(mm2 - mm1), Abs(mp1 - mp2));
      assert Min(mp1, mm1) == Min(mm1, mp1) && Max(mp1, mm1) == Max(mm1, mp1);
    }
  }

  /** The tangent always lies between the slopes on the two sides of the knot
      (so it is the common slope at a point of a straight line). */
  lemma GradBetweenSlopes(vm2: real, vm1: real, v0: real, vp1: real, vp2: real)
    ensures Min(v0 - vm1, vp1 - v0) <= Grad(vm2, vm1, v0, vp1, vp2) <= Max(v0 - vm1, vp1 - v0)
  {
    SlopeGradBetween(vm1 - vm2, v0 - vm1, vp1 - v0, vp2 - vp1);
  }
}
