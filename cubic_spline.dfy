/** The spline engine: control values, the parallel list of cubic pieces, the edits that keep
    the two in step, and evaluation. One class stands for the abstract `Spline`/`CubicSpline`
    bases and their four concrete splines; the concrete spline is the `variant` it was built
    with. */
module Splines {
  import opened Wrappers
  import opened EndTypes
  import opened Numerics
  import opened CubicSegments
  import opened Tangents
  import opened Canonical
  import opened Locality
  import opened Edits
  import opened MonotoneShape

  class CubicSpline {
    /** Fixed at construction: the property has only a private setter. */
    const endType: EndType
    /** Which of the four concrete splines this is. */
    const variant: Variant
    /** The control values (`v`; `Points` is its length). */
    var v: seq<real>
    /** The cubic pieces (`segment_list`), one per control value. */
    var segments: seq<Segment>

    /** Every slot holds the piece a full `Set` of the current control values would build. */
    ghost predicate Valid()
      reads this
    {
      segments == Build(variant, endType, v)
    }

    /** `Points`: the number of control values. */
    function Points(): (n: nat)
      reads this
      requires Valid()
      ensures n == |v| == |segments|
    {
      |v|
    }

    /** A new, empty spline of the given kind and end type. */
    constructor (variant: Variant, endType: EndType)
      ensures this.variant == variant && this.endType == endType
      ensures v == [] && segments == [] && Valid()
    {
      this.variant := variant;
      this.endType := endType;
      v := [];
      segments := [];
    }

    /** Empties both lists. */
    method Initialize()
      modifies this
      ensures v == [] && segments == [] && Valid()
    {
      v := [];
      segments := [];
    }

    /** Writes the canonical piece into every slot that a refresh of `index` reaches. */
    method ReflashSegment(index: int)
      requires |v| >= 1 && |segments| == |v|
      modifies this`segments
      ensures |segments| == |v|
      ensures forall s :: 0 <= s < |v| ==>
                segments[s] == if Touches(endType, |v|, index, s) then Seg(variant, endType, v, s)
                               else old(segments[s])
    {
      var n := |v|;
      if n <= 1 {
        segments := segments[0 := Constant(v[0])];
        return;
      }
      var i := index;
      if endType == Close {
        i := (CsRem(i, n) + n) % n;
      }
      if i < 0 || i >= n {
        return;
      }
      if endType == Open {
        if i == 0 {
          segments := segments[0 := LeftEnd(v[0], v[1], Tangent(variant, endType, v, 1))];
          if n == 2 {
            TwoPointEndsAgree(variant, v);
          }
        } else if i >= n - 2 {
          segments := segments[n - 2 := RightEnd(v[n - 2], v[n - 1], Tangent(variant, endType, v, n - 2))];
          var g := segments[n - 2].b + 2.0 * segments[n - 2].c;
          segments := segments[n - 1 := Linear(v[n - 1], v[n - 1] + g)];
          if n == 2 {
            TwoPointEndsAgree(variant, v);
          }
        } else {
          segments := segments[i := Interval(v[i], v[i + 1], Tangent(variant, endType, v, i),
                                                Tangent(variant, endType, v, i + 1))];
        }
      } else {
        if i == n - 1 {
          segments := segments[n - 1 := Interval(v[n - 1], v[0], Tangent(variant, endType, v, n - 1),
                                                    Tangent(variant, endType, v, 0))];
        } else {
          segments := segments[i := Interval(v[i], v[i + 1], Tangent(variant, endType, v, i),
                                                Tangent(variant, endType, v, i + 1))];
        }
      }
    }

    /** The refresh loop `for (i = first; i <= last; i++) ReflashSegment(i)`: afterwards every
        slot reached by one of those refreshes is canonical, every slot none of them reaches
        keeps its piece, and no slot holds anything but its old or its canonical piece. */
    method RefreshWindow(first: int, last: int)
      requires |v| >= 1 && |segments| == |v| && first <= last + 1
      modifies this`segments
      ensures |segments| == |v|
      ensures forall s :: 0 <= s < |v| ==>
                segments[s] == old(segments[s]) || segments[s] == Seg(variant, endType, v, s)
      ensures forall j, s :: first <= j <= last && 0 <= s < |v| && Touches(endType, |v|, j, s) ==>
                segments[s] == Seg(variant, endType, v, s)
      ensures forall s :: 0 <= s < |v| && (forall j :: first <= j <= last ==> !Touches(endType, |v|, j, s)) ==>
                segments[s] == old(segments[s])
    {
      var i := first;
      while i <= last
        invariant first <= i <= last + 1
        invariant |segments| == |v|
        invariant forall s :: 0 <= s < |v| ==>
                    segments[s] == old(segments[s]) || segments[s] == Seg(variant, endType, v, s)
        invariant forall j, s :: first <= j < i && 0 <= s < |v| && Touches(endType, |v|, j, s) ==>
                    segments[s] == Seg(variant, endType, v, s)
        invariant forall s :: 0 <= s < |v| && (forall j :: first <= j < i ==> !Touches(endType, |v|, j, s)) ==>
                    segments[s] == old(segments[s])
      {
        ReflashSegment(i);
        i := i + 1;
      }
    }

    /** The refresh of every slot, `for (i = 0; i < Points; i++) ReflashSegment(i)`, rebuilds the
        canonical list whatever the slots held before. */
    method RefreshAll()
      requires |v| >= 1 && |segments| == |v|
      modifies this`segments
      ensures Valid()
    {
      RefreshWindow(0, |v| - 1);
      forall s | 0 <= s < |v|
        ensures segments[s] == Seg(variant, endType, v, s)
      {
        TouchesSelf(endType, |v|, s);
      }
    }

    /** `Set(v, points)`: clears the spline, then takes the first `points` values. A missing,
        empty or too short array is an `ArgumentException`, a negative count (with a usable
        array) fails when the segment list is allocated; either way the spline stays empty. */
    method Set(values: Option<seq<real>>, points: int) returns (r: Outcome)
      modifies this
      ensures Valid()
      ensures r.Pass? <==> points == 0 || (values.Some? && 0 < points <= |values.value|)
      ensures r.Pass? && points != 0 ==> v == values.value[..points]
      ensures r.Pass? && points == 0 ==> v == []
      ensures r.Fail? ==> v == []
      ensures r.Fail? ==> r.error == if values.None? || |values.value| <= 0 || |values.value| < points
                                     then ArgumentException else ArgumentOutOfRangeException
    {
      Initialize();
      if points == 0 {
        return Pass;
      }
      if values.None? || |values.value| <= 0 || |values.value| < points {
        return Fail(ArgumentException);
      }
      if points < 0 {
        // `v.Take(points)` adds nothing; the list of negative capacity then throws.
        return Fail(ArgumentOutOfRangeException);
      }
      v := values.value[..points];
      var list: seq<Segment> := [];
      var i := 0;
      while i < points
        invariant 0 <= i <= points && |list| == i
      {
        list := list + [Zero()];
        i := i + 1;
      }
      segments := list;
      RefreshAll();
      return Pass;
    }

    /** `Set(params v)`: the same as `Set(v, v.Length)`. */
    method SetAll(values: seq<real>)
      modifies this
      ensures v == values && Valid()
    {
      var r := Set(Some(values), |values|);
    }

    /** The exception a concrete spline throws for a bad `Insert`/`Remove` index. */
    function IndexError(): Exception
      reads this
    {
      if variant.ThreePoint? then ArgumentException else ArgumentOutOfRangeException
    }

    /** `Insert(index, new_v)`. On success the spline is exactly what `Set` on the edited list
        builds, although only the window around the new point has been refreshed. */
    method Insert(index: int, x: real) returns (r: Outcome)
      requires Valid()
      modifies this
      ensures Valid()
      ensures r.Pass? <==> 0 <= index <= old(|v|)
      ensures r.Pass? ==> v == Inserted(old(v), index, x)
      ensures r.Fail? ==> r.error == IndexError() && v == old(v) && segments == old(segments)
    {
      if index < 0 || index > |v| {
        return Fail(IndexError());
      }
      ghost var v0 := v;
      v := Inserted(v, index, x);
      segments := segments[..index] + [Zero()] + segments[index..];
      ghost var before := segments;
      var radius := Radius(variant);
      if |v| > 2 * radius + 2 {
        RefreshWindow(index - radius - 1, index + radius);
        InsertWindow(variant, endType, v0, index, x);
        WindowRepairs(variant, endType, v, v0, index - radius - 1, index + radius, -1, before, segments);
      } else {
        RefreshAll();
      }
      return Pass;
    }

    /** `Remove(index)`. On success the spline is exactly what `Set` on the shortened list
        builds, although only the window around the removed point has been refreshed. */
    method Remove(index: int) returns (r: Outcome)
      requires Valid()
      modifies this
      ensures Valid()
      ensures r.Pass? <==> 0 <= index < old(|v|)
      ensures r.Pass? ==> v == Removed(old(v), index)
      ensures r.Fail? ==> r.error == IndexError() && v == old(v) && segments == old(segments)
    {
      if index < 0 || index >= |v| {
        return Fail(IndexError());
      }
      ghost var v0 := v;
      v := Removed(v, index);
      segments := segments[..index] + segments[index + 1..];
      ghost var before := segments;
      var radius := Radius(variant);
      if |v| > 2 * radius + 1 {
        RefreshWindow(index - radius - 1, index + radius - 1);
        RemoveWindow(variant, endType, v0, index);
        WindowRepairs(variant, endType, v, v0, index - radius - 1, index + radius - 1, 1, before, segments);
      } else if |v| > 0 {
        RefreshAll();
      }
      return Pass;
    }

    /** `SetPoint(index, set_v)`. An index out of range fails in the list indexer before
        anything changes; otherwise the spline is exactly what `Set` on the list with that value
        replaced builds. */
    method SetPoint(index: int, x: real) returns (r: Outcome)
      requires Valid()
      modifies this
      ensures Valid()
      ensures r.Pass? <==> 0 <= index < old(|v|)
      ensures r.Pass? ==> v == old(v)[index := x]
      ensures r.Fail? ==> r.error == ArgumentOutOfRangeException && v == old(v) && segments == old(segments)
    {
      if index < 0 || index >= |v| {
        return Fail(ArgumentOutOfRangeException);
      }
      ghost var v0 := v;
      v := v[index := x];
      ghost var before := segments;
      var radius := Radius(variant);
      if |v| > 2 * radius + 2 {
        RefreshWindow(index - radius - 1, index + radius);
        ReplaceWindow(variant, endType, v0, index, x);
        WindowRepairs(variant, endType, v, v0, index - radius - 1, index + radius, 0, before, segments);
      } else {
        RefreshAll();
      }
      return Pass;
    }
 
    /** The interpolated value at parameter t (knot j sits at t = j). An empty spline has no
        value (NaN). Under `Open`, t < 0 continues the first piece's tangent line and t >= 0 is
        read in slot `min((int)t, Points - 1)`; under `Close` the slot is `floor(t)` wrapped
        into range. */
    function Value(t: real): (r: Option<real>)
      reads this
      requires |segments| == |v|
      ensures r.None? <==> |v| == 0
    {
      var n := |v|;
      if n <= 0 then None
      else if endType == Open then
        if t >= 0.0 then
          var pos := if t < (n - 1) as real then Truncate(t) else n - 1;
          Some(segments[pos].Value(t - pos as real))
        else
          Some(segments[0].a + t * segments[0].b)
      else
        var f := t.Floor;
        var pos := (CsRem(f, n) + n) % n;
        Some(segments[pos].Value(t - f as real))
    }

    /** The first derivative at t, read in the same slot as `Value`; constant left of an open
        spline. */
    function Diff(t: real): (r: Option<real>)
      reads this
      requires |segments| == |v|
      ensures r.None? <==> |v| == 0
    {
      var n := |v|;
      if n <= 0 then None
      else if endType == Open then
        if t >= 0.0 then
          var pos := if t < (n - 1) as real then Truncate(t) else n - 1;
          Some(segments[pos].Diff(t - pos as real))
        else
          Some(segments[0].b)
      else
        var f := t.Floor;
        var pos := (CsRem(f, n) + n) % n;
        Some(segments[pos].Diff(t - f as real))
    }

    /** The k-th derivative at t (`Diff(t, n)`). */
    function DiffN(t: real, k: nat): (r: Option<real>)
      reads this
      requires |segments| == |v|
      ensures r.None? <==> |v| == 0
      ensures k == 0 ==> r == Value(t)
      ensures k == 1 ==> r == Diff(t)
      ensures k > 3 && |v| > 0 ==> r == Some(0.0)
    {
      var n := |v|;
      if n <= 0 then None
      else if endType == Open then
        if k == 0 then Value(t)
        else if k == 1 then Diff(t)
        else if k > 3 then Some(0.0)
        else if t >= 0.0 then
          var pos := if t < (n - 1) as real then Truncate(t) else n - 1;
          Some(segments[pos].DiffN(t - pos as real, k))
        else
          Some(0.0)
      else
        var f := t.Floor;
        var pos := (CsRem(f, n) + n) % n;
        Some(segments[pos].DiffN(t - f as real, k))
    }

    /** The spline passes through its control points. */
    lemma ValueAtKnot(j: int)
      requires Valid() && 0 <= j < |v|
      ensures Value(j as real) == Some(v[j])
    {
      var n := |v|;
      SegInterpolates(variant, endType, v, j);
      if endType == Close {
        WrapSmall(j, n);
        assert (j as real).Floor == j;
      }
    }

    /** A closed spline is periodic with period `Points`, in value and in every derivative. */
    lemma ClosePeriodic(t: real, k: nat)
      requires Valid() && endType == Close && |v| > 0
      ensures Value(t + |v| as real) == Value(t)
      ensures Diff(t + |v| as real) == Diff(t)
      ensures DiffN(t + |v| as real, k) == DiffN(t, k)
    {
      var n := |v|;
      var f := t.Floor;
      assert (t + n as real).Floor == f + n;
      assert (t + n as real) - (f + n) as real == t - f as real;
      WrapIsMod(f, n);
      WrapIsMod(f + n, n);
      ModPeriod(f, n);
    }

    /** Left of an open spline, the curve is the tangent line at its first knot, and its
        higher derivatives vanish. */
    lemma OpenLeftExtension(t: real, k: nat)
      requires |segments| == |v| > 0 && endType == Open && t < 0.0
      ensures Diff(t) == Diff(0.0)
      ensures Value(t).value == Value(0.0).value + t * Diff(0.0).value
      ensures k >= 2 ==> DiffN(t, k) == Some(0.0)
    {
      assert Truncate(0.0) == 0;
      AtZero(segments[0]);
    }

    /** From its last knot on, an open spline is read in its last piece. */
    lemma OpenBeyondLastKnot(h: real)
      requires |segments| == |v| > 0 && endType == Open && h >= 0.0
      ensures Value((|v| - 1) as real + h) == Some(segments[|v| - 1].Value(h))
      ensures Diff((|v| - 1) as real + h) == Some(segments[|v| - 1].Diff(h))
    {
      var n := |v|;
      var t := (n - 1) as real + h;
      if t < (n - 1) as real {
        assert false;
      }
    }

    /** Right of its last knot, an open spline continues as the straight line through the last
        control value, with the slope at which the `RightEnd` piece arrives there. */
    lemma OpenRightExtension(h: real)
      requires Valid() && endType == Open && |v| >= 2 && h >= 0.0
      ensures Value((|v| - 1) as real + h) == Some(v[|v| - 1] + h * EndSlope(variant, v))
      ensures Diff((|v| - 1) as real + h) == Some(EndSlope(variant, v))
    {
      var n := |v|;
      OpenBeyondLastKnot(h);
      assert segments[n - 1] == Linear(v[n - 1], v[n - 1] + EndSlope(variant, v));
    }

    /** An open monotone spline through non-decreasing data never falls, anywhere on the real
        line, and one through non-increasing data never rises. */
    lemma MonotoneOpenSlope(t: real)
      requires Valid() && variant == MonotoneVariant && endType == Open && |v| > 0
      ensures (forall i :: 0 <= i < |v| - 1 ==> v[i] <= v[i + 1]) ==> Diff(t).value >= 0.0
      ensures (forall i :: 0 <= i < |v| - 1 ==> v[i] >= v[i + 1]) ==> Diff(t).value <= 0.0
    {
      var n := |v|;
      if t < 0.0 {
        AtZero(segments[0]);
        OpenFollowsMonotoneData(v, 0, 0.0);
      } else if t < (n - 1) as real {
        var pos := Truncate(t);
        OpenFollowsMonotoneData(v, pos, t - pos as real);
      } else {
        var last := segments[n - 1];
        assert last.c == 0.0 && last.d == 0.0;
        assert Diff(t) == Some(last.Diff(t - (n - 1) as real));
        assert last.Diff(t - (n - 1) as real) == last.Diff(0.0);
        OpenFollowsMonotoneData(v, n - 1, 0.0);
      }
    }

    /** `GetPoint(index)`: the list indexer. */
    function GetPoint(index: int): (r: Result<real>)
      reads this
      ensures r.Success? <==> 0 <= index < |v|
      ensures r.Success? ==> r.value == v[index]
      ensures r.Failure? ==> r.error == ArgumentOutOfRangeException
    {
      if 0 <= index < |v| then Success(v[index]) else Failure(ArgumentOutOfRangeException)
    }

    /** `IsInRange` as the library writes it, with `||`. */
    function IsInRangeAsWritten(index: int): bool
      reads this
    {
      (index >= 0) || (index < |v|)
    }

    /** `IsInRangeAsWritten` accepts every index, including `Points`, where `GetPoint` fails. */
    lemma IsInRangeAsWrittenAdmitsBadIndex()
      ensures forall index :: IsInRangeAsWritten(index)
      ensures IsInRangeAsWritten(|v|) && GetPoint(|v|).Failure?
    {
    }

    /** `IsInRange` as intended: exactly the indices `GetPoint` (and `SetPoint`, `Remove`) accept. */
    function IsInRange(index: int): (r: bool)
      reads this
      ensures r <==> GetPoint(index).Success?
    {
      index >= 0 && index < |v|
    }

    /** The base `Spline ==`: the same object, or two objects with equal end type and equal
        control values; never equal to null. */
    static predicate SplineEquals(s1: CubicSpline?, s2: CubicSpline?)
      reads s1, s2
    {
      if s1 == s2 then true
      else if s1 == null || s2 == null then false
      else if s1.endType != s2.endType then false
      else s1.v == s2.v
    }

    /** The base equality is an equivalence relation. */
    static lemma SplineEqualsIsEquivalence(s1: CubicSpline?, s2: CubicSpline?, s3: CubicSpline?)
      ensures SplineEquals(s1, s1)
      ensures SplineEquals(s1, s2) ==> SplineEquals(s2, s1)
      ensures SplineEquals(s1, s2) && SplineEquals(s2, s3) ==> SplineEquals(s1, s3)
    {
    }

    /** `CubicSpline ==`: the base equality, then a slot-by-slot comparison of the pieces. Two
        null references pass the base test and then fail on reading the first one's pieces. */
    static method Equals(s1: CubicSpline?, s2: CubicSpline?) returns (r: Result<bool>)
      requires s1 != null ==> s1.Valid()
      requires s2 != null ==> s2.Valid()
      ensures r.Failure? <==> s1 == null && s2 == null
      ensures r.Failure? ==> r.error == NullReferenceException
      ensures r.Success? ==>
                (r.value <==> SplineEquals(s1, s2) && (s1 != null && s2 != null ==> s1.segments == s2.segments))
    {
      if !SplineEquals(s1, s2) {
        return Success(false);
      }
      if s1 == null {
        return Failure(NullReferenceException);
      }
      var n := |s1.segments|;
      var i := 0;
      while i < n
        invariant 0 <= i <= n
        invariant s1.segments[..i] == s2.segments[..i]
      {
        if !Equal(s1.segments[i], s2.segments[i]) {
          return Success(false);
        }
        i := i + 1;
      }
      return Success(true);
    }

    /** For two splines of the same kind the piece comparison adds nothing: the pieces are
        determined by the end type and the control values. */
    static lemma SameKindEqualityIsDataEquality(s1: CubicSpline, s2: CubicSpline)
      requires s1.Valid() && s2.Valid() && s1.variant == s2.variant
      ensures SplineEquals(s1, s2) ==> s1.segments == s2.segments
    {
    }
  }
}
