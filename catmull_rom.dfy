/** The Catmull-Rom tangent estimator (three neighbouring points). */
module CatmullRom {

  /** The tangent at v0: half the difference of its two neighbours. */
  function Grad(vm1: real, v0: real, vp1: real): real {
    (-vm1 + vp1) / 2.0
  }

  /** The tangent is the mean of the slopes on the two sides of the knot. */
  lemma GradIsMeanSlope(vm1: real, v0: real, vp1: real)
    ensures Grad(vm1, v0, vp1) == ((v0 - vm1) + (vp1 - v0)) / 2.0
  {
  }

  /** The centre value does not enter. */
  lemma GradIgnoresCenter(vm1: real, v0: real, w0: real, vp1: real)
    ensures Grad(vm1, v0, vp1) == Grad(vm1, w0, vp1)
  {
  }

  /** Mirroring the neighbours negates the tangent. */
  lemma GradAntisymmetric(vm1: real, v0: real, vp1: real)
    ensures Grad(vp1, v0, vm1) == -Grad(vm1, v0, vp1)
  {
  }

  /** Three collinear points get the slope of their line. */
  lemma GradExactOnLines(vm1: real, v0: real, vp1: real)
    requires v0 - vm1 == vp1 - v0
    ensures Grad(vm1, v0, vp1) == v0 - vm1
  {
  }
}
