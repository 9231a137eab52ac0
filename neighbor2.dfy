/** Tangent placement for the splines whose tangent at a knot depends on the knot and one
    neighbour on each side (Catmull-Rom and monotone). */
module Neighbor2 {
  import opened Wrappers
  import opened EndTypes
  import opened Extension
  import CatmullRom
  import Monotone

  /** The concrete three-point splines. */
  datatype Kind = CatmullRomSpline | MonotoneSpline

  /** The spline's own estimator `Grad(vm1, v0, vp1)`. */
  function Estimate(k: Kind, vm1: real, v0: real, vp1: real): real {
    match k
    case CatmullRomSpline => CatmullRom.Grad(vm1, v0, vp1)
    case MonotoneSpline => Monotone.Grad(vm1, v0, vp1)
  }

  /** The tangent at control point `index`, with phantom points at the ends of an open spline
      and cyclic neighbours in a closed one. */
  function Grad(k: Kind, e: EndType, v: seq<real>, index: int): (r: Result<real>)
    ensures r.Success? <==> 0 <= index < |v|
    ensures r.Failure? ==> r.error == ArgumentException
  {
    var n := |v|;
    if index < 0 || index >= n then Failure(ArgumentException)
    else if n <= 1 then Success(0.0)
    else if e == Open then
      if n <= 2 then Success(v[1] - v[0])
      else if index == 0 then Success(Estimate(k, 2.0 * v[0] - v[1], v[0], v[1]))
      else if index == n - 1 then Success(Estimate(k, v[n - 2], v[n - 1], 2.0 * v[n - 1] - v[n - 2]))
      else Success(Estimate(k, v[index - 1], v[index], v[index + 1]))
    else
      if n <= 2 then Success(0.0)
      else if index == 0 then Success(Estimate(k, v[n - 1], v[0], v[1]))
      else if index == n - 1 then Success(Estimate(k, v[n - 2], v[n - 1], v[0]))
      else Success(Estimate(k, v[index - 1], v[index], v[index + 1]))
  }

  /** With at least three points, every tangent is the estimator applied to the extended
      control values around the knot: the phantom points are the linear extrapolation of the
      end chords, and the closed spline's neighbours wrap around. */
  lemma GradIsEstimateOnExtension(k: Kind, e: EndType, v: seq<real>, i: int)
    requires |v| >= 3 && 0 <= i < |v|
    ensures Grad(k, e, v, i)
         == Success(Estimate(k, Extended(e, v, i - 1), Extended(e, v, i), Extended(e, v, i + 1)))
  {
    if e == Close {
      CloseExtensionNear(v, i - 1);
      CloseExtensionNear(v, i + 1);
    }
  }

  /** One or two points: no neighbourhood to estimate from. */
  lemma GradFewPoints(k: Kind, e: EndType, v: seq<real>)
    requires 1 <= |v| <= 2
    ensures |v| == 1 ==> Grad(k, e, v, 0) == Success(0.0)
    ensures |v| == 2 ==> Grad(k, e, v, 0) == Grad(k, e, v, 1)
                         == Success(if e == Open then v[1] - v[0] else 0.0)
  {
  }

  /** The Catmull-Rom end tangents of an open spline are the end chords. */
  lemma CatmullRomOpenEndTangents(v: seq<real>)
    requires |v| >= 2
    ensures Grad(CatmullRomSpline, Open, v, 0) == Success(v[1] - v[0])
    ensures Grad(CatmullRomSpline, Open, v, |v| - 1) == Success(v[|v| - 1] - v[|v| - 2])
  {
  }
}
