/** Tangent placement for the splines whose tangent at a knot depends on the knot and two
    neighbours on each side (Akima and pixel). */
module Neighbor4 {
  import opened Wrappers
  import opened EndTypes
  import opened Extension
  import Akima
  import Pixel

  /** The concrete five-point splines. */
  datatype Kind = AkimaSpline | PixelSpline

  /** The spline's own estimator `Grad(vm2, vm1, v0, vp1, vp2)`. */
  function Estimate(k: Kind, vm2: real, vm1: real, v0: real, vp1: real, vp2: real): real {
    match k
    case AkimaSpline => Akima.Grad(vm2, vm1, v0, vp1, vp2)
    case PixelSpline => Pixel.Grad(vm2, vm1, v0, vp1, vp2)
  }

  /** The tangent at control point `index`, with two phantom points at each end of an open
      spline and cyclic neighbours in a closed one. */
  function Grad(k: Kind, e: EndType, v: seq<real>, index: int): (r: Result<real>)
    ensures r.Success? <==> 0 <= index < |v|
    ensures r.Failure? ==> r.error == ArgumentOutOfRangeException
  {
    var n := |v|;
    if index < 0 || index >= n then Failure(ArgumentOutOfRangeException)
    else if n <= 1 then Success(0.0)
    else if e == Open then
      if n <= 2 then Success(v[1] - v[0])
      else if n <= 3 && index == 1 then
        Success(Estimate(k, 2.0 * v[0] - v[1], v[0], v[1], v[2], 2.0 * v[2] - v[1]))
      else if index == 0 then
        Success(Estimate(k, 3.0 * v[0] - 2.0 * v[1], 2.0 * v[0] - v[1], v[0], v[1], v[2]))
      else if index == 1 then
        Success(Estimate(k, 2.0 * v[0] - v[1], v[0], v[1], v[2], v[3]))
      else if index == n - 2 then
        Success(Estimate(k, v[n - 4], v[n - 3], v[n - 2], v[n - 1], 2.0 * v[n - 1] - v[n - 2]))
      else if index == n - 1 then
        Success(Estimate(k, v[n - 3], v[n - 2], v[n - 1], 2.0 * v[n - 1] - v[n - 2],
                         3.0 * v[n - 1] - 2.0 * v[n - 2]))
      else Success(Estimate(k, v[index - 2], v[index - 1], v[index], v[index + 1], v[index + 2]))
    else
      if n <= 2 then Success(0.0)
      else if n <= 3 then
        if index == 0 then Success(Estimate(k, v[1], v[2], v[0], v[1], v[2]))
        else if index == 1 then Success(Estimate(k, v[2], v[0], v[1], v[2], v[0]))
        else Success(Estimate(k, v[0], v[1], v[2], v[0], v[1]))
      else if index == 0 then Success(Estimate(k, v[n - 2], v[n - 1], v[0], v[1], v[2]))
      else if index == 1 then Success(Estimate(k, v[n - 1], v[0], v[1], v[2], v[3]))
      else if index == n - 1 then Success(Estimate(k, v[n - 3], v[n - 2], v[n - 1], v[0], v[1]))
      else if index == n - 2 then Success(Estimate(k, v[n - 4], v[n - 3], v[n - 2], v[n - 1], v[0]))
      else Success(Estimate(k, v[index - 2], v[index - 1], v[index], v[index + 1], v[index + 2]))
  }

  /** With at least three points, every tangent is the estimator applied to the five extended
      control values around the knot (two phantom points per open end, cyclic neighbours when
      closed); in particular every index the placement reads is in bounds. */
  lemma GradIsEstimateOnExtension(k: Kind, e: EndType, v: seq<real>, i: int)
    requires |v| >= 3 && 0 <= i < |v|
    ensures Grad(k, e, v, i)
         == Success(Estimate(k, Extended(e, v, i - 2), Extended(e, v, i - 1), Extended(e, v, i),
                             Extended(e, v, i + 1), Extended(e, v, i + 2)))
  {
    if e == Open {
      GradOpenIsEstimate(k, v, i);
    } else {
      GradCloseIsEstimate(k, v, i);
    }
  }

  lemma GradOpenIsEstimate(k: Kind, v: seq<real>, i: int)
    requires |v| >= 3 && 0 <= i < |v|
    ensures Grad(k, Open, v, i)
         == Success(Estimate(k, Extended(Open, v, i - 2), Extended(Open, v, i - 1), Extended(Open, v, i),
                             Extended(Open, v, i + 1), Extended(Open, v, i + 2)))
  {
    var n := |v|;
    OpenPhantoms(v);
    if n <= 3 && i == 1 {
      assert Extended(Open, v, i + 2) == 2.0 * v[2] - v[1];
    } else if i == 0 {
    } else if i == 1 {
    } else if i == n - 2 {
    } else if i == n - 1 {
    } else {
    }
  }

  lemma GradCloseIsEstimate(k: Kind, v: seq<real>, i: int)
    requires |v| >= 3 && 0 <= i < |v|
    ensures Grad(k, Close, v, i)
         == Success(Estimate(k, Extended(Close, v, i - 2), Extended(Close, v, i - 1), Extended(Close, v, i),
                             Extended(Close, v, i + 1), Extended(Close, v, i + 2)))
  {
    CloseExtensionNear(v, i - 2);
    CloseExtensionNear(v, i - 1);
    CloseExtensionNear(v, i + 1);
    CloseExtensionNear(v, i + 2);
  }

  /** One or two points: no neighbourhood to estimate from. */
  lemma GradFewPoints(k: Kind, e: EndType, v: seq<real>)
    requires 1 <= |v| <= 2
    ensures |v| == 1 ==> Grad(k, e, v, 0) == Success(0.0)
    ensures |v| == 2 ==> Grad(k, e, v, 0) == Grad(k, e, v, 1)
                         == Success(if e == Open then v[1] - v[0] else 0.0)
  {
  }
}
