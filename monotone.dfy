/** The monotone tangent estimator (three neighbouring points): the harmonic mean of the
    two adjacent slopes, and zero at a local extremum. */
module Monotone {
  import opened Numerics

  function Grad(vm1: real, v0: real, vp1: real): real {
    var vv := (vm1 - v0) * (v0 - vp1);
    if vv > 0.0 then
      ProductSign(v0 - vm1, vp1 - v0);
      2.0 * vv / (vp1 - vm1)
    else 0.0
  }

  /** The data rise on both sides of v0, or fall on both sides. */
  predicate StrictlyMonotone(vm1: real, v0: real, vp1: real) {
    (vm1 < v0 && v0 < vp1) || (vm1 > v0 && v0 > vp1)
  }

  /** Where the data turn (or stay level on one side), the tangent is zero. */
  lemma GradFlatAtExtremum(vm1: real, v0: real, vp1: real)
    requires !StrictlyMonotone(vm1, v0, vp1)
    ensures Grad(vm1, v0, vp1) == 0.0
  {
    ProductSign(v0 - vm1, vp1 - v0);
    assert (vm1 - v0) * (v0 - vp1) == (v0 - vm1) * (vp1 - v0);
  }

  /** Bounds on the harmonic mean h of two positive slopes a and b. */
  lemma HarmonicMeanBounds(a: real, b: real, h: real)
    requires a > 0.0 && b > 0.0 && h * (a + b) == 2.0 * a * b
    ensures 0.0 < h <= 2.0 * a && h <= 2.0 * b
    ensures Min(a, b) <= h <= Max(a, b)
  {
    assert (h - a) * (a + b) == a * (b - a);
    assert (h - b) * (a + b) == b * (a - b);
    assert (2.0 * a - h) * (a + b) == 2.0 * a * a;
    assert (2.0 * b - h) * (a + b) == 2.0 * b * b;
  }

  /** Where the data rise or fall on both sides, the tangent is the harmonic mean of the slopes:
      of the same sign, between the two, and at most twice the smaller. */
  lemma {:induction false} GradHarmonicMean(vm1: real, v0: real, vp1: real)
    requires StrictlyMonotone(vm1, v0, vp1)
    ensures var a, b, r := v0 - vm1, vp1 - v0, Grad(vm1, v0, vp1);
      r * (a + b) == 2.0 * a * b
      && (a > 0.0 ==> 0.0 < r <= 2.0 * Min(a, b))
      && (a < 0.0 ==> 2.0 * Max(a, b) <= r < 0.0)
      && Min(a, b) <= r <= Max(a, b)
      && (r > 0.0 <==> vp1 > vm1) && r != 0.0
      && Abs(r) <= 2.0 * Min(Abs(a), Abs(b))
  {
    var a, b := v0 - vm1, vp1 - v0;
    ProductSign(a, b);
    assert (vm1 - v0) * (v0 - vp1) == a * b;
    var r := Grad(vm1, v0, vp1);
    assert r == 2.0 * (a * b) / (a + b);
    if a > 0.0 {
      HarmonicMeanBounds(a, b, r);
    } else {
      assert (-r) * (-a + -b) == 2.0 * (-a) * (-b);
      HarmonicMeanBounds(-a, -b, -r);
    }
  }

  /** Three collinear points get the slope of their line. */
  lemma GradExactOnLines(vm1: real, v0: real, vp1: real)
    requires v0 - vm1 == vp1 - v0
    ensures Grad(vm1, v0, vp1) == v0 - vm1
  {
    if v0 != vm1 {
      GradHarmonicMean(vm1, v0, vp1);
    } else {
      GradFlatAtExtremum(vm1, v0, vp1);
    }
  }

  /** Whatever the data, the tangent has the sign of each adjacent chord it is not opposed by and
      is at most twice that chord: the bound under which a Hermite piece follows its chord
      (`CubicSegments.IntervalFollowsChord`). */
  lemma GradWithinChords(vm1: real, v0: real, vp1: real)
    ensures var r := Grad(vm1, v0, vp1);
      (vp1 >= v0 ==> 0.0 <= r <= 2.0 * (vp1 - v0))
      && (vp1 <= v0 ==> 2.0 * (vp1 - v0) <= r <= 0.0)
      && (v0 >= vm1 ==> 0.0 <= r <= 2.0 * (v0 - vm1))
      && (v0 <= vm1 ==> 2.0 * (v0 - vm1) <= r <= 0.0)
  {
    if StrictlyMonotone(vm1, v0, vp1) {
      GradHarmonicMean(vm1, v0, vp1);
    } else {
      GradFlatAtExtremum(vm1, v0, vp1);
    }
  }
}
