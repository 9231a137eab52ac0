/** The canonical segment list of a spline: the piece every slot holds once `ReflashSegment`
    has been applied to it, and which slots a single `ReflashSegment(i)` writes. */
module Canonical {
  import opened EndTypes
  import opened Numerics
  import opened CubicSegments
  import opened Tangents

  /** The piece `ReflashSegment` writes into slot s of a spline with control values v. */
  function Seg(variant: Variant, e: EndType, v: seq<real>, s: int): Segment
    requires 0 <= s < |v|
  {
    var n := |v|;
    if n <= 1 then Constant(v[0])
    else if e == Open then
      if s == 0 then LeftEnd(v[0], v[1], Tangent(variant, e, v, 1))
      else if s == n - 2 then RightEnd(v[n - 2], v[n - 1], Tangent(variant, e, v, n - 2))
      else if s == n - 1 then Linear(v[n - 1], v[n - 1] + EndSlope(variant, v))
      else Interval(v[s], v[s + 1], Tangent(variant, e, v, s), Tangent(variant, e, v, s + 1))
    else if s == n - 1 then
      Interval(v[n - 1], v[0], Tangent(variant, e, v, n - 1), Tangent(variant, e, v, 0))
    else
      Interval(v[s], v[s + 1], Tangent(variant, e, v, s), Tangent(variant, e, v, s + 1))
  }

  /** The slope with which an open spline leaves its last knot: `b + 2c` of the `RightEnd`
      piece before it, which is that piece's derivative at its right end. */
  function EndSlope(variant: Variant, v: seq<real>): (g: real)
    requires |v| >= 2
    ensures g == RightEnd(v[|v| - 2], v[|v| - 1], Tangent(variant, Open, v, |v| - 2)).Diff(1.0)
  {
    var r := RightEnd(v[|v| - 2], v[|v| - 1], Tangent(variant, Open, v, |v| - 2));
    r.b + 2.0 * r.c
  }

  /** The whole canonical list: what `Set` builds. */
  function Build(variant: Variant, e: EndType, v: seq<real>): (r: seq<Segment>)
    ensures |r| == |v|
    ensures forall s :: 0 <= s < |v| ==> r[s] == Seg(variant, e, v, s)
  {
    seq(|v|, s requires 0 <= s < |v| => Seg(variant, e, v, s))
  }

  /** Whether `ReflashSegment(i)` on a spline of n points writes slot s. */
  predicate Touches(e: EndType, n: nat, i: int, s: int) {
    if n <= 1 then s == 0
    else if e == Close then s == Wrap(i, n)
    else if i < 0 || i >= n then false
    else if i == 0 then s == 0
    else if i >= n - 2 then s == n - 2 || s == n - 1
    else s == i
  }

  /** Every slot is written by the refresh of its own index. */
  lemma TouchesSelf(e: EndType, n: nat, s: int)
    requires 0 <= s < n
    ensures Touches(e, n, s, s)
  {
    if n > 1 && e == Close {
      WrapSmall(s, n);
    }
  }

  /** A refresh only writes slots that exist; under `Open` it writes nothing when the index is
      out of range, under `Close` exactly the slot of the wrapped index. */
  lemma TouchesInRange(e: EndType, n: nat, i: int, s: int)
    requires n >= 1 && Touches(e, n, i, s)
    ensures 0 <= s < n
    ensures e == Open && n >= 2 ==> 0 <= i < n
  {
    if n > 1 && e == Close {
      WrapIsMod(i, n);
    }
  }

  /** With two points and open ends, the `LeftEnd` and the `RightEnd` written into slot 0 by the
      two refreshes coincide: both are the chord. */
  lemma TwoPointEndsAgree(variant: Variant, v: seq<real>)
    requires |v| == 2
    ensures RightEnd(v[0], v[1], Tangent(variant, Open, v, 0))
         == LeftEnd(v[0], v[1], Tangent(variant, Open, v, 1))
         == Linear(v[0], v[1])
  {
    match variant
    case ThreePoint(k) => Neighbor2.GradFewPoints(k, Open, v);
    case FivePoint(k) => Neighbor4.GradFewPoints(k, Open, v);
  }

  /** Every canonical piece starts at its knot, and every piece but an open spline's last one
      ends at the next knot (cyclically under `Close`): the spline interpolates its points. */
  lemma SegInterpolates(variant: Variant, e: EndType, v: seq<real>, s: int)
    requires 0 <= s < |v|
    ensures Seg(variant, e, v, s).Value(0.0) == v[s]
    ensures |v| >= 2 && (e == Close || s < |v| - 1) ==>
              Seg(variant, e, v, s).Value(1.0) == v[(s + 1) % |v|]
  {
    if |v| >= 2 && (e == Close || s < |v| - 1) {
      if s < |v| - 1 {
        ModOfRemainder(s + 1, |v|);
      } else {
        ModUnique(s + 1, |v|, 1, 0);
      }
    }
  }

  /** Neighbouring canonical pieces share the tangent at their common knot, so the spline is
      continuously differentiable there (at every knot under `Close`, at every inner knot under
      `Open`). */
  lemma SegTangentsMatch(variant: Variant, e: EndType, v: seq<real>, s: int)
    requires |v| >= 3 && 0 <= s < |v|
    requires e == Close || 1 <= s <= |v| - 2
    ensures Seg(variant, e, v, s).Diff(0.0) == Tangent(variant, e, v, s)
    ensures Seg(variant, e, v, (s + |v| - 1) % |v|).Diff(1.0) == Tangent(variant, e, v, s)
  {
    var n := |v|;
    if s == 0 {
      ModOfRemainder(n - 1, n);
    } else {
      ModOfRemainder(s - 1, n);
      ModUnique(s + n - 1, n, 1, s - 1);
    }
  }

  /** The straight last piece of an open spline leaves with the slope at which the `RightEnd`
      piece before it arrives, so the open spline is smooth at its last knot too. */
  lemma LastPieceContinuesSlope(variant: Variant, v: seq<real>)
    requires |v| >= 2
    ensures Seg(variant, Open, v, |v| - 1).Diff(0.0) == Seg(variant, Open, v, |v| - 2).Diff(1.0)
  {
    if |v| == 2 {
      TwoPointEndsAgree(variant, v);
    }
  }
}
