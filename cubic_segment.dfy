/** One cubic piece `a + b*t + c*t^2 + d*t^3` of a spline, over the local parameter t in [0, 1]. */
module CubicSegments {
  import opened Numerics

  datatype Segment = Segment(a: real, b: real, c: real, d: real) {

    /** The value at local parameter t (Horner form, as the library evaluates it). */
    function Value(t: real): real {
      a + t * (b + t * (c + t * d))
    }

    /** The first derivative at t. */
    function Diff(t: real): real {
      b + t * (2.0 * c + t * 3.0 * d)
    }

    /** The n-th derivative at t; a cubic has no derivative above the third. */
    function DiffN(t: real, n: nat): real {
      if n == 0 then Value(t)
      else if n == 1 then Diff(t)
      else if n > 3 then 0.0
      else if n == 2 then 2.0 * c + t * 6.0 * d
      else 6.0 * d
    }
  }

  /** The value of a fresh `new CubicSegment()`: all coefficients zero. */
  function Zero(): (r: Segment)
    ensures forall t :: r.Value(t) == 0.0 && r.Diff(t) == 0.0
  {
    Segment(0.0, 0.0, 0.0, 0.0)
  }

  /** The left boundary piece: it knows only the tangent at its right end, and is quadratic. */
  function LeftEnd(v0: real, v1: real, g1: real): (r: Segment)
    ensures r.d == 0.0
    ensures r.Value(0.0) == v0 && r.Value(1.0) == v1 && r.Diff(1.0) == g1
  {
    Segment(v0, -2.0 * (v0 - v1) - g1, v0 - v1 + g1, 0.0)
  }

  /** The right boundary piece: it knows only the tangent at its left end, and is quadratic. */
  function RightEnd(v0: real, v1: real, g0: real): (r: Segment)
    ensures r.d == 0.0
    ensures r.Value(0.0) == v0 && r.Value(1.0) == v1 && r.Diff(0.0) == g0
    ensures r.Diff(1.0) == r.b + 2.0 * r.c == 2.0 * (v1 - v0) - g0
  {
    Segment(v0, g0, -v0 + v1 - g0, 0.0)
  }

  /** The cubic Hermite piece with end values v0, v1 and end tangents g0, g1. */
  function Interval(v0: real, v1: real, g0: real, g1: real): (r: Segment)
    ensures r.Value(0.0) == v0 && r.Value(1.0) == v1
    ensures r.Diff(0.0) == g0 && r.Diff(1.0) == g1
  {
    Segment(v0, g0, -3.0 * (v0 - v1) - 2.0 * g0 - g1, 2.0 * (v0 - v1) + g0 + g1)
  }

  /** The straight piece through two points. */
  function Linear(v0: real, v1: real): (r: Segment)
    ensures r.Value(0.0) == v0 && r.Value(1.0) == v1
    ensures forall t :: r.Value(t) == v0 + t * (v1 - v0) && r.Diff(t) == v1 - v0
  {
    Segment(v0, v1 - v0, 0.0, 0.0)
  }

  /** The flat piece of a one-point spline. */
  function Constant(v: real): (r: Segment)
    ensures forall t :: r.Value(t) == v && r.Diff(t) == 0.0
  {
    Segment(v, 0.0, 0.0, 0.0)
  }

  /** `==` on segments: exact equality of the four coefficients. */
  predicate Equal(s1: Segment, s2: Segment): (r: bool)
    ensures r <==> s1 == s2
  {
    s1.a == s2.a && s1.b == s2.b && s1.c == s2.c && s1.d == s2.d
  }

  /** Diff and DiffN are the derivatives of Value: the cubic's Taylor expansion is exact. */
  lemma TaylorValue(s: Segment, t: real, h: real)
    ensures s.Value(t + h)
         == s.Value(t) + h * s.Diff(t) + h * h / 2.0 * s.DiffN(t, 2) + h * h * h / 6.0 * s.DiffN(t, 3)
  {
  }

  lemma TaylorDiff(s: Segment, t: real, h: real)
    ensures s.Diff(t + h) == s.Diff(t) + h * s.DiffN(t, 2) + h * h / 2.0 * s.DiffN(t, 3)
    ensures s.DiffN(t + h, 2) == s.DiffN(t, 2) + h * s.DiffN(t, 3)
    ensures s.DiffN(t + h, 3) == s.DiffN(t, 3)
  {
  }

  lemma DiffNBeyondCubic(s: Segment, t: real, n: nat)
    requires n > 3
    ensures s.DiffN(t, n) == 0.0
  {
  }

  /** At the start of a piece, the value and the slope are the first two coefficients. */
  lemma AtZero(s: Segment)
    ensures s.Value(0.0) == s.a && s.Diff(0.0) == s.b
  {
  }

  /** The slope of an interval piece in Bernstein-like form, with k = g0 + g1 - 3 (v1 - v0). */
  lemma IntervalDiffForm(v0: real, v1: real, g0: real, g1: real, h: real)
    ensures Interval(v0, v1, g0, g1).Diff(h)
         == g0 * ((1.0 - h) * (1.0 - h)) + g1 * (h * h) - 2.0 * (g0 + g1 - 3.0 * (v1 - v0)) * (h * (1.0 - h))
  {
  }

  /** g0 u^2 + g1 h^2 - 2 k h u is non-negative on [0, 1] when both g are at least 0 and at least 2k. */
  lemma QuadraticFormNonNegative(g0: real, g1: real, k: real, h: real)
    requires 0.0 <= h <= 1.0 && 0.0 <= g0 && 0.0 <= g1 && 2.0 * k <= g0 && 2.0 * k <= g1
    ensures g0 * ((1.0 - h) * (1.0 - h)) + g1 * (h * h) - 2.0 * k * (h * (1.0 - h)) >= 0.0
  {
    var u := 1.0 - h;
    var hh, uu, hu := h * h, u * u, h * u;
    MulNonNegative(h, u);
    MulNonNegative(u, u);
    MulNonNegative(h, h);
    if k <= 0.0 {
      MulNonNegative(g0, uu);
      MulNonNegative(g1, hh);
      MulNonNegative(-2.0 * k, hu);
    } else {
      MulNonNegative(g0 - 2.0 * k, uu);
      MulNonNegative(g1 - 2.0 * k, hh);
      SquareNonNegative(u - h);
      assert uu + hh - hu == (u - h) * (u - h) + hu;
      MulNonNegative(k, uu + hh - hu);
    }
  }

  /** A rising interval piece whose end slopes lie in [0, 2 * chord] never falls. */
  lemma IntervalRises(v0: real, v1: real, g0: real, g1: real, h: real)
    requires 0.0 <= g0 <= 2.0 * (v1 - v0) && 0.0 <= g1 <= 2.0 * (v1 - v0) && 0.0 <= h <= 1.0
    ensures Interval(v0, v1, g0, g1).Diff(h) >= 0.0
  {
    IntervalDiffForm(v0, v1, g0, g1, h);
    QuadraticFormNonNegative(g0, g1, g0 + g1 - 3.0 * (v1 - v0), h);
  }

  /** An interval piece whose end slopes share the chord's sign and are at most twice it follows the chord's direction throughout. */
  lemma IntervalFollowsChord(v0: real, v1: real, g0: real, g1: real, h: real)
    requires 0.0 <= h <= 1.0
    ensures 0.0 <= g0 <= 2.0 * (v1 - v0) && 0.0 <= g1 <= 2.0 * (v1 - v0) ==>
              Interval(v0, v1, g0, g1).Diff(h) >= 0.0
    ensures 2.0 * (v1 - v0) <= g0 <= 0.0 && 2.0 * (v1 - v0) <= g1 <= 0.0 ==>
              Interval(v0, v1, g0, g1).Diff(h) <= 0.0
  {
    if 0.0 <= g0 <= 2.0 * (v1 - v0) && 0.0 <= g1 <= 2.0 * (v1 - v0) {
      IntervalRises(v0, v1, g0, g1, h);
    }
    if 2.0 * (v1 - v0) <= g0 <= 0.0 && 2.0 * (v1 - v0) <= g1 <= 0.0 {
      IntervalRises(-v0, -v1, -g0, -g1, h);
      assert Interval(-v0, -v1, -g0, -g1).Diff(h) == -Interval(v0, v1, g0, g1).Diff(h);
    }
  }

  /** The same for the quadratic left end piece, which has only its right slope. */
  lemma LeftEndFollowsChord(v0: real, v1: real, g1: real, h: real)
    requires 0.0 <= h <= 1.0
    ensures 0.0 <= g1 <= 2.0 * (v1 - v0) ==> LeftEnd(v0, v1, g1).Diff(h) >= 0.0
    ensures 2.0 * (v1 - v0) <= g1 <= 0.0 ==> LeftEnd(v0, v1, g1).Diff(h) <= 0.0
  {
    var d := v1 - v0;
    assert LeftEnd(v0, v1, g1).Diff(h) == (2.0 * d - g1) * (1.0 - h) + g1 * h;
    if 0.0 <= g1 <= 2.0 * d {
      MulNonNegative(2.0 * d - g1, 1.0 - h);
      MulNonNegative(g1, h);
    }
    if 2.0 * d <= g1 <= 0.0 {
      MulNonNegative(g1 - 2.0 * d, 1.0 - h);
      MulNonNegative(-g1, h);
    }
  }

  /** The same for the quadratic right end piece, which has only its left slope. */
  lemma RightEndFollowsChord(v0: real, v1: real, g0: real, h: real)
    requires 0.0 <= h <= 1.0
    ensures 0.0 <= g0 <= 2.0 * (v1 - v0) ==> RightEnd(v0, v1, g0).Diff(h) >= 0.0
    ensures 2.0 * (v1 - v0) <= g0 <= 0.0 ==> RightEnd(v0, v1, g0).Diff(h) <= 0.0
  {
    var d := v1 - v0;
    assert RightEnd(v0, v1, g0).Diff(h) == g0 * (1.0 - h) + (2.0 * d - g0) * h;
    if 0.0 <= g0 <= 2.0 * d {
      MulNonNegative(g0, 1.0 - h);
      MulNonNegative(2.0 * d - g0, h);
    }
    if 2.0 * d <= g0 <= 0.0 {
      MulNonNegative(-g0, 1.0 - h);
      MulNonNegative(g0 - 2.0 * d, h);
    }
  }
}
