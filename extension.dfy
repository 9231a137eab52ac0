/** The control values extended beyond both ends: by linear extrapolation of the end chords
    under `Open`, and periodically under `Close`. The phantom points that the tangent
    placement invents at the ends are values of this extension. */
module Extension {
  import opened EndTypes
  import opened Numerics

  /** The point k steps beyond an end whose last two values are `a0` (the end) and `a1`. */
  function Extrapolate(a0: real, a1: real, k: nat): real {
    a0 + (a0 - a1) * (k as real)
  }

  /** The extended control value at (possibly out-of-range) position p. */
  function Extended(e: EndType, v: seq<real>, p: int): real
    requires |v| >= 2
  {
    var n := |v|;
    if 0 <= p < n then v[p]
    else if e == Close then v[p % n]
    else if p < 0 then Extrapolate(v[0], v[1], -p)
    else Extrapolate(v[n - 1], v[n - 2], p - (n - 1))
  }

  /** Each extrapolation step repeats the end chord. */
  lemma ExtrapolateStep(a0: real, a1: real, k: nat)
    ensures Extrapolate(a0, a1, k + 1) == Extrapolate(a0, a1, k) + (a0 - a1)
  {
  }

  /** Under `Open`, the extension continues the first and the last chord as straight lines. */
  lemma OpenExtensionIsLinear(v: seq<real>, p: int)
    requires |v| >= 2
    ensures p <= 0 ==> Extended(Open, v, p - 1) == Extended(Open, v, p) + (v[0] - v[1])
    ensures p >= |v| - 1 ==> Extended(Open, v, p + 1) == Extended(Open, v, p) + (v[|v| - 1] - v[|v| - 2])
  {
    if p <= 0 {
      ExtrapolateStep(v[0], v[1], -p);
    }
    if p >= |v| - 1 {
      ExtrapolateStep(v[|v| - 1], v[|v| - 2], p - (|v| - 1));
    }
  }

  /** The two phantom points beyond each end of an open list. */
  lemma OpenPhantoms(v: seq<real>)
    requires |v| >= 2
    ensures Extended(Open, v, -1) == 2.0 * v[0] - v[1]
    ensures Extended(Open, v, -2) == 3.0 * v[0] - 2.0 * v[1]
    ensures Extended(Open, v, |v|) == 2.0 * v[|v| - 1] - v[|v| - 2]
    ensures Extended(Open, v, |v| + 1) == 3.0 * v[|v| - 1] - 2.0 * v[|v| - 2]
  {
  }

  /** Under `Close`, the extension has period |v|. */
  lemma CloseExtensionIsPeriodic(v: seq<real>, p: int)
    requires |v| >= 2
    ensures Extended(Close, v, p + |v|) == Extended(Close, v, p)
    ensures Extended(Close, v, p) == v[p % |v|]
  {
    var n := |v|;
    ModPeriod(p, n);
    if 0 <= p < n {
      ModOfRemainder(p, n);
    }
    if 0 <= p + n < n {
      ModOfRemainder(p + n, n);
    }
  }

  /** Within one period of either end, the `Close` extension shifts the index by one period. */
  lemma CloseExtensionNear(v: seq<real>, p: int)
    requires |v| >= 2 && -|v| <= p < 2 * |v|
    ensures Extended(Close, v, p) == v[if p < 0 then p + |v| else if p < |v| then p else p - |v|]
  {
    var n := |v|;
    if p < 0 {
      ModUnique(p, n, -1, p + n);
    } else if p >= n {
      ModUnique(p, n, 1, p - n);
    }
  }
}
