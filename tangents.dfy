/** The tangent placement of a spline, whichever of the four concrete splines it is: a
    three-point spline (`CubicSplineNeighbor2`) or a five-point one (`CubicSplineNeighbor4`). */
module Tangents {
  import opened Wrappers
  import opened EndTypes
  import opened Extension
  import Neighbor2
  import Neighbor4

  /** The concrete spline: its neighbourhood width and its estimator. */
  datatype Variant = ThreePoint(k2: Neighbor2.Kind) | FivePoint(k4: Neighbor4.Kind)

  /** How many neighbours on each side the tangent at a knot reads. */
  function Radius(variant: Variant): (r: nat)
    ensures 1 <= r <= 2
    ensures r == 1 <==> variant.ThreePoint?
  {
    if variant.ThreePoint? then 1 else 2
  }

  /** `Grad(int)` of the concrete spline. */
  function Grad(variant: Variant, e: EndType, v: seq<real>, index: int): (r: Result<real>)
    ensures r.Success? <==> 0 <= index < |v|
  {
    match variant
    case ThreePoint(k) => Neighbor2.Grad(k, e, v, index)
    case FivePoint(k) => Neighbor4.Grad(k, e, v, index)
  }

  /** The tangent at a valid knot. */
  function Tangent(variant: Variant, e: EndType, v: seq<real>, i: int): real
    requires 0 <= i < |v|
  {
    Grad(variant, e, v, i).value
  }

  /** The estimator applied to the extended control values around any position p. */
  function EstimateAt(variant: Variant, e: EndType, v: seq<real>, p: int): real
    requires |v| >= 2
  {
    match variant
    case ThreePoint(k) =>
      Neighbor2.Estimate(k, Extended(e, v, p - 1), Extended(e, v, p), Extended(e, v, p + 1))
    case FivePoint(k) =>
      Neighbor4.Estimate(k, Extended(e, v, p - 2), Extended(e, v, p - 1), Extended(e, v, p),
                         Extended(e, v, p + 1), Extended(e, v, p + 2))
  }

  /** With three or more points, the tangent at every knot is the estimator on the extension. */
  lemma TangentIsEstimate(variant: Variant, e: EndType, v: seq<real>, i: int)
    requires |v| >= 3 && 0 <= i < |v|
    ensures Tangent(variant, e, v, i) == EstimateAt(variant, e, v, i)
  {
    match variant
    case ThreePoint(k) => Neighbor2.GradIsEstimateOnExtension(k, e, v, i);
    case FivePoint(k) => Neighbor4.GradIsEstimateOnExtension(k, e, v, i);
  }

  /** The estimate at p only reads the extended values within `Radius` of p: two control
      lists whose extensions agree there, up to a shift k, have the same estimate. */
  lemma EstimateLocal(variant: Variant, e: EndType, w: seq<real>, v: seq<real>, p: int, k: int)
    requires |w| >= 2 && |v| >= 2
    requires forall q :: p - Radius(variant) <= q <= p + Radius(variant) ==>
               Extended(e, w, q) == Extended(e, v, q + k)
    ensures EstimateAt(variant, e, w, p) == EstimateAt(variant, e, v, p + k)
  {
    assert Extended(e, w, p - 1) == Extended(e, v, p + k - 1);
    assert Extended(e, w, p) == Extended(e, v, p + k);
    assert Extended(e, w, p + 1) == Extended(e, v, p + k + 1);
    if variant.FivePoint? {
      assert Extended(e, w, p - 2) == Extended(e, v, p + k - 2);
      assert Extended(e, w, p + 2) == Extended(e, v, p + k + 2);
    }
  }

  /** Under `Close` the estimate is periodic in the knot position. */
  lemma EstimatePeriodic(variant: Variant, v: seq<real>, p: int)
    requires |v| >= 2
    ensures EstimateAt(variant, Close, v, p + |v|) == EstimateAt(variant, Close, v, p)
  {
    forall q | p - Radius(variant) <= q <= p + Radius(variant)
      ensures Extended(Close, v, q) == Extended(Close, v, q + |v|)
    {
      CloseExtensionIsPeriodic(v, q);
    }
    EstimateLocal(variant, Close, v, v, p, |v|);
  }
}
