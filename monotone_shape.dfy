/** The shape of the monotone spline: every piece moves in the direction of its chord, so the
    curve through non-decreasing (non-increasing) data never falls (rises). */
module MonotoneShape {
  import opened EndTypes
  import opened CubicSegments
  import opened Tangents
  import opened Canonical
  import Neighbor2
  import Monotone

  /** The monotone spline's tangent placement. */
  const MonotoneVariant: Variant := ThreePoint(Neighbor2.MonotoneSpline)

  /** The knot before and after i on a closed list of n points. */
  function Prev(n: nat, i: int): int {
    if i == 0 then n - 1 else i - 1
  }

  function Next(n: nat, i: int): int {
    if i == n - 1 then 0 else i + 1
  }

  /** The chord that piece s spans: to the next knot, cyclically under `Close`; the last piece
      of an open spline continues the last chord. */
  function Chord(e: EndType, v: seq<real>, s: int): real
    requires 0 <= s < |v|
  {
    var n := |v|;
    if n <= 1 then 0.0
    else if s < n - 1 then v[s + 1] - v[s]
    else if e == Close then v[0] - v[s]
    else v[s] - v[s - 1]
  }

  /** Chord direction and bound on a slope g: g has the sign of d and at most twice its size. */
  predicate Within(g: real, d: real) {
    (d >= 0.0 ==> 0.0 <= g <= 2.0 * d) && (d <= 0.0 ==> 2.0 * d <= g <= 0.0)
  }

  /** A tangent the spline places at a knot with a neighbour on each side lies within both
      adjacent chords. */
  lemma TangentWithinChords(e: EndType, v: seq<real>, i: int)
    requires |v| >= 3 && 0 <= i < |v|
    requires e == Close || 0 < i < |v| - 1
    ensures Within(Tangent(MonotoneVariant, e, v, i), v[Next(|v|, i)] - v[i])
    ensures Within(Tangent(MonotoneVariant, e, v, i), v[i] - v[Prev(|v|, i)])
  {
    var n := |v|;
    assert Tangent(MonotoneVariant, e, v, i) == Monotone.Grad(v[Prev(n, i)], v[i], v[Next(n, i)]);
    Monotone.GradWithinChords(v[Prev(n, i)], v[i], v[Next(n, i)]);
  }

  /** Interior pieces (and every piece of a closed spline) are Hermite intervals between two
      tangents that lie within the piece's chord. */
  lemma IntervalPieceFollowsChord(e: EndType, v: seq<real>, s: int, h: real)
    requires |v| >= 3 && 0 <= s < |v| && 0.0 <= h <= 1.0
    requires e == Close || 0 < s < |v| - 2
    ensures Chord(e, v, s) >= 0.0 ==> Seg(MonotoneVariant, e, v, s).Diff(h) >= 0.0
    ensures Chord(e, v, s) <= 0.0 ==> Seg(MonotoneVariant, e, v, s).Diff(h) <= 0.0
  {
    var n := |v|;
    var t := Next(n, s);
    assert Prev(n, t) == s;
    TangentWithinChords(e, v, s);
    TangentWithinChords(e, v, t);
    assert Seg(MonotoneVariant, e, v, s)
        == Interval(v[s], v[t], Tangent(MonotoneVariant, e, v, s), Tangent(MonotoneVariant, e, v, t));
    IntervalFollowsChord(v[s], v[t], Tangent(MonotoneVariant, e, v, s), Tangent(MonotoneVariant, e, v, t), h);
  }

  /** The pieces at the ends of an open spline of three or more points: the quadratic end
      pieces read one interior tangent, and the straight extension continues the last chord. */
  lemma OpenEndPieceFollowsChord(v: seq<real>, s: int, h: real)
    requires |v| >= 3 && (s == 0 || s == |v| - 2 || s == |v| - 1) && 0.0 <= h <= 1.0
    ensures Chord(Open, v, s) >= 0.0 ==> Seg(MonotoneVariant, Open, v, s).Diff(h) >= 0.0
    ensures Chord(Open, v, s) <= 0.0 ==> Seg(MonotoneVariant, Open, v, s).Diff(h) <= 0.0
  {
    var n := |v|;
    if s == 0 {
      TangentWithinChords(Open, v, 1);
      LeftEndFollowsChord(v[0], v[1], Tangent(MonotoneVariant, Open, v, 1), h);
    } else {
      TangentWithinChords(Open, v, n - 2);
      var g := Tangent(MonotoneVariant, Open, v, n - 2);
      if s == n - 2 {
        RightEndFollowsChord(v[n - 2], v[n - 1], g, h);
      } else {
        assert Seg(MonotoneVariant, Open, v, s).Diff(h) == 2.0 * (v[n - 1] - v[n - 2]) - g;
      }
    }
  }

  /** Every piece of the monotone spline moves in the direction of its chord throughout [0, 1]. */
  lemma PieceFollowsChord(e: EndType, v: seq<real>, s: int, h: real)
    requires 0 <= s < |v| && 0.0 <= h <= 1.0
    ensures Chord(e, v, s) >= 0.0 ==> Seg(MonotoneVariant, e, v, s).Diff(h) >= 0.0
    ensures Chord(e, v, s) <= 0.0 ==> Seg(MonotoneVariant, e, v, s).Diff(h) <= 0.0
  {
    var n := |v|;
    if n == 2 {
      Neighbor2.GradFewPoints(Neighbor2.MonotoneSpline, e, v);
      var g := Tangent(MonotoneVariant, e, v, 1);
      if e == Open {
        if s == 0 {
          LeftEndFollowsChord(v[0], v[1], g, h);
        } else {
          assert Seg(MonotoneVariant, e, v, s).Diff(h) == 2.0 * (v[1] - v[0]) - g;
        }
      } else {
        IntervalFollowsChord(v[s], v[1 - s], 0.0, 0.0, h);
      }
    } else if n >= 3 {
      if e == Close || 0 < s < n - 2 {
        IntervalPieceFollowsChord(e, v, s, h);
      } else {
        OpenEndPieceFollowsChord(v, s, h);
      }
    }
  }

  /** An open monotone spline through non-decreasing data has a non-negative slope on every
      piece, and one through non-increasing data a non-positive one. */
  lemma OpenFollowsMonotoneData(v: seq<real>, s: int, h: real)
    requires 0 <= s < |v| && 0.0 <= h <= 1.0
    ensures (forall i :: 0 <= i < |v| - 1 ==> v[i] <= v[i + 1]) ==>
              Seg(MonotoneVariant, Open, v, s).Diff(h) >= 0.0
    ensures (forall i :: 0 <= i < |v| - 1 ==> v[i] >= v[i + 1]) ==>
              Seg(MonotoneVariant, Open, v, s).Diff(h) <= 0.0
  {
    PieceFollowsChord(Open, v, s, h);
    if |v| >= 2 && s == |v| - 1 {
      assert Chord(Open, v, s) == v[|v| - 2 + 1] - v[|v| - 2];
    }
  }
}
