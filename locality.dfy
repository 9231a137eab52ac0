/** Why a bounded refresh window suffices: each canonical piece depends only on the extended
    control values within a few positions of its slot, so an edit at one index changes the
    canonical pieces of a bounded set of slots, and the refresh loops of `Insert`, `Remove`
    and `SetPoint` write every one of them. */
module Locality {
  import opened EndTypes
  import opened Numerics
  import opened CubicSegments
  import opened Extension
  import opened Tangents
  import opened Canonical

  /** The shape of the piece in a slot. */
  datatype Role = First | Inner | Penultimate | Last

  function RoleOf(e: EndType, n: nat, s: int): Role {
    if e == Close then Inner
    else if s == 0 then First
    else if s == n - 2 then Penultimate
    else if s == n - 1 then Last
    else Inner
  }

  /** The canonical piece written in terms of the extended control values and the estimates
      on them, uniformly in the slot index. */
  function SegRef(variant: Variant, e: EndType, v: seq<real>, s: int): Segment
    requires |v| >= 3 && 0 <= s < |v|
  {
    match RoleOf(e, |v|, s)
    case First =>
      LeftEnd(Extended(e, v, s), Extended(e, v, s + 1), EstimateAt(variant, e, v, s + 1))
    case Inner =>
      Interval(Extended(e, v, s), Extended(e, v, s + 1),
               EstimateAt(variant, e, v, s), EstimateAt(variant, e, v, s + 1))
    case Penultimate =>
      RightEnd(Extended(e, v, s), Extended(e, v, s + 1), EstimateAt(variant, e, v, s))
    case Last =>
      var r := RightEnd(Extended(e, v, s - 1), Extended(e, v, s), EstimateAt(variant, e, v, s - 1));
      Linear(Extended(e, v, s), Extended(e, v, s) + (r.b + 2.0 * r.c))
  }

  /** With three or more points, the canonical piece is its reference form. */
  lemma SegIsRef(variant: Variant, e: EndType, v: seq<real>, s: int)
    requires |v| >= 3 && 0 <= s < |v|
    ensures Seg(variant, e, v, s) == SegRef(variant, e, v, s)
  {
    var n := |v|;
    TangentIsEstimate(variant, e, v, s);
    if s + 1 < n {
      TangentIsEstimate(variant, e, v, s + 1);
    }
    if e == Open {
      if s == n - 1 {
        TangentIsEstimate(variant, e, v, n - 2);
      }
    } else if s == n - 1 {
      TangentIsEstimate(variant, e, v, 0);
      CloseExtensionNear(v, n);
      EstimatePeriodic(variant, v, 0);
    }
  }

  /** The lowest extended position the piece in slot s reads. */
  function RefLo(variant: Variant, e: EndType, n: nat, s: int): int {
    if e == Open && s == n - 1 then s - Radius(variant) - 1 else s - Radius(variant)
  }

  /** Two pieces in slots of the same role whose extended neighbourhoods agree (up to the
      shift k) are equal. */
  lemma RefLocal(variant: Variant, e: EndType, w: seq<real>, v: seq<real>, s: int, k: int)
    requires |w| >= 3 && |v| >= 3 && 0 <= s < |w| && 0 <= s + k < |v|
    requires RoleOf(e, |w|, s) == RoleOf(e, |v|, s + k)
    requires forall p :: RefLo(variant, e, |w|, s) <= p <= s + Radius(variant) + 1 ==>
               Extended(e, w, p) == Extended(e, v, p + k)
    ensures SegRef(variant, e, w, s) == SegRef(variant, e, v, s + k)
  {
    assert Extended(e, w, s) == Extended(e, v, s + k);
    if RoleOf(e, |w|, s) == Last {
      assert Extended(e, w, s - 1) == Extended(e, v, s - 1 + k);
      EstimateLocal(variant, e, w, v, s - 1, k);
    } else {
      assert Extended(e, w, s + 1) == Extended(e, v, s + 1 + k);
      EstimateLocal(variant, e, w, v, s, k);
      EstimateLocal(variant, e, w, v, s + 1, k);
    }
  }

  /** The shape of a refresh window [lo, hi] after an edit that turned the control list v into
      w, with slots beyond the edit shifted by delta. */
  predicate WindowFits(w: seq<real>, v: seq<real>, lo: int, hi: int, delta: int) {
    |w| >= 3 && |v| >= 3 && |v| == |w| + delta &&
    lo <= hi && hi - lo < |w| && lo <= |w| - 2 && lo <= |v| - 2 && hi >= 0 && hi + delta >= 0
  }

  /** Left of the window, the old and the new extension agree wherever a piece outside the
      window can read. */
  ghost predicate LeftZone(variant: Variant, e: EndType, w: seq<real>, v: seq<real>, lo: int, hi: int)
    requires |w| >= 2 && |v| >= 2
  {
    var r := Radius(variant);
    if e == Open then
      lo >= 1 ==> forall p :: p <= lo + r ==> Extended(e, w, p) == Extended(e, v, p)
    else
      forall p :: hi - |w| - r + 1 <= p <= lo + r ==> Extended(e, w, p) == Extended(e, v, p)
  }

  /** Right of the window, the new extension is the old one shifted by delta. */
  ghost predicate RightZone(variant: Variant, e: EndType, w: seq<real>, v: seq<real>, lo: int, hi: int,
                      delta: int)
    requires |w| >= 2 && |v| >= 2
  {
    var r := Radius(variant);
    if e == Open then
      hi <= |w| - 2 ==> forall p :: p >= hi - r + 1 ==> Extended(e, w, p) == Extended(e, v, p + delta)
    else
      forall p :: hi - r + 1 <= p <= |w| + lo + r ==> Extended(e, w, p) == Extended(e, v, p + delta)
  }

  /** Every slot of the edited spline is either written by a refresh in the window, or keeps
      the canonical piece of its old slot (the same slot left of the window, the shifted slot
      right of it). */
  lemma WindowCovers(variant: Variant, e: EndType, w: seq<real>, v: seq<real>,
                     lo: int, hi: int, delta: int, s: int)
    requires WindowFits(w, v, lo, hi, delta)
    requires LeftZone(variant, e, w, v, lo, hi) && RightZone(variant, e, w, v, lo, hi, delta)
    requires 0 <= s < |w|
    ensures || (exists j :: lo <= j <= hi && Touches(e, |w|, j, s))
            || (s < lo && Seg(variant, e, w, s) == Seg(variant, e, v, s))
            || (s > hi && Seg(variant, e, w, s) == Seg(variant, e, v, s + delta))
  {
    var m := |w|;
    if lo <= s <= hi {
      TouchesSelf(e, m, s);
      assert Touches(e, m, s, s);
    } else if e == Close && s < lo && s + m <= hi {
      WrapSmall(s + m, m);
      assert Touches(e, m, s + m, s);
    } else if e == Close && s > hi && s - m >= lo {
      WrapSmall(s - m, m);
      assert Touches(e, m, s - m, s);
    } else if e == Open && s == m - 1 && hi == m - 2 {
      assert Touches(e, m, hi, s);
    } else if s < lo {
      KeptLeft(variant, e, w, v, lo, hi, delta, s);
    } else {
      KeptRight(variant, e, w, v, lo, hi, delta, s);
    }
  }

  /** A slot left of the window (and, when closed, not reached by its wrap-around) keeps its
      old piece. */
  lemma KeptLeft(variant: Variant, e: EndType, w: seq<real>, v: seq<real>,
                 lo: int, hi: int, delta: int, s: int)
    requires WindowFits(w, v, lo, hi, delta) && LeftZone(variant, e, w, v, lo, hi)
    requires 0 <= s < lo && (e == Close ==> s + |w| > hi)
    ensures Seg(variant, e, w, s) == Seg(variant, e, v, s)
  {
    SegIsRef(variant, e, w, s);
    SegIsRef(variant, e, v, s);
    RefLocal(variant, e, w, v, s, 0);
  }

  /** A slot right of the window (and, when closed, not reached by its wrap-around; when open,
      not the last slot rewritten with the penultimate one) keeps the old piece of its shifted
      slot. */
  lemma KeptRight(variant: Variant, e: EndType, w: seq<real>, v: seq<real>,
                  lo: int, hi: int, delta: int, s: int)
    requires WindowFits(w, v, lo, hi, delta) && RightZone(variant, e, w, v, lo, hi, delta)
    requires hi < s < |w| && (e == Close ==> s - |w| < lo)
    requires e == Open ==> !(s == |w| - 1 && hi == |w| - 2)
    ensures Seg(variant, e, w, s) == Seg(variant, e, v, s + delta)
  {
    SegIsRef(variant, e, w, s);
    SegIsRef(variant, e, v, s + delta);
    RefLocal(variant, e, w, v, s, delta);
  }

  /** A segment list that held the old canonical pieces (shifted right of the window), after
      refreshes that wrote canonical pieces into at least every slot the window touches, is
      the canonical list of the edited spline. */
  lemma WindowRepairs(variant: Variant, e: EndType, w: seq<real>, v: seq<real>,
                      lo: int, hi: int, delta: int, before: seq<Segment>, after: seq<Segment>)
    requires WindowFits(w, v, lo, hi, delta)
    requires LeftZone(variant, e, w, v, lo, hi) && RightZone(variant, e, w, v, lo, hi, delta)
    requires |before| == |after| == |w|
    requires forall s :: 0 <= s < lo ==> before[s] == Seg(variant, e, v, s)
    requires forall s :: hi < s < |w| ==> before[s] == Seg(variant, e, v, s + delta)
    requires forall s :: 0 <= s < |w| ==> after[s] == before[s] || after[s] == Seg(variant, e, w, s)
    requires forall j, s :: lo <= j <= hi && 0 <= s < |w| && Touches(e, |w|, j, s) ==>
               after[s] == Seg(variant, e, w, s)
    ensures after == Build(variant, e, w)
  {
    forall s | 0 <= s < |w|
      ensures after[s] == Seg(variant, e, w, s)
    {
      WindowCovers(variant, e, w, v, lo, hi, delta, s);
    }
  }
}
