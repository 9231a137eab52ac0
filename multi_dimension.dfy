/** `SplineMultiDimension`: a curve in D dimensions as D one-dimensional splines of one kind
    and one end type, one per coordinate, edited together. A point is a `seq<real>` of length D. */
module MultiDimension {
  import opened Wrappers
  import opened EndTypes
  import opened Tangents
  import opened Edits
  import opened Splines

  /** Column `k` of the first `points` rows. */
  function Column(rows: seq<seq<real>>, k: int, points: nat): (c: seq<real>)
    requires 0 <= k && points <= |rows|
    requires forall j :: 0 <= j < points ==> k < |rows[j]|
    ensures |c| == points && forall j :: 0 <= j < points ==> c[j] == rows[j][k]
  {
    seq(points, j requires 0 <= j < points => rows[j][k])
  }

  /** The error `Set(v, points)` reports after clearing, if any: a row of the wrong dimension
      (reached before the end of the array), then reading past the end of the array, then a
      negative count when the column buffer is allocated. */
  function RowsError(rows: seq<seq<real>>, points: int, dimension: int): Option<Exception> {
    if exists j :: 0 <= j < points && j < |rows| && |rows[j]| != dimension then Some(ArgumentException)
    else if points > |rows| then Some(IndexOutOfRangeException)
    else if points < 0 then Some(OverflowException)
    else None
  }

  class SplineMultiDimension {
    /** The spline of each coordinate (the array is never reassigned). */
    const axes: seq<CubicSpline>
    /** `Dimention`. */
    const dimension: nat
    const variant: Variant
    const endType: EndType

    /** D distinct, valid axes of one kind and end type, all with the same number of points. */
    ghost predicate Valid()
      reads this, axes
    {
      && dimension >= 1 && |axes| == dimension
      && (forall i, j :: 0 <= i < j < |axes| ==> axes[i] != axes[j])
      && (forall i :: 0 <= i < |axes| ==>
            && axes[i].Valid() && axes[i].variant == variant && axes[i].endType == endType
            && |axes[i].v| == |axes[0].v|)
    }

    /** `Points`, read from the first axis. */
    function Points(): (n: nat)
      reads this, axes
      requires Valid()
      ensures forall i :: 0 <= i < |axes| ==> n == |axes[i].v|
    {
      |axes[0].v|
    }

    /** D fresh, empty axes. */
    constructor (dimension: int, variant: Variant, endType: EndType)
      requires dimension >= 1
      ensures Valid() && this.dimension == dimension && Points() == 0
      ensures this.variant == variant && this.endType == endType
      ensures forall i :: 0 <= i < |axes| ==> fresh(axes[i])
    {
      var list: seq<CubicSpline> := [];
      var i := 0;
      while i < dimension
        invariant 0 <= i <= dimension && |list| == i
        invariant forall j :: 0 <= j < i ==> fresh(list[j])
        invariant forall j, k :: 0 <= j < k < i ==> list[j] != list[k]
        invariant forall j :: 0 <= j < i ==>
                    list[j].Valid() && list[j].variant == variant && list[j].endType == endType
                    && list[j].v == []
      {
        var s := new CubicSpline(variant, endType);
        list := list + [s];
        i := i + 1;
      }
      axes := list;
      this.dimension := dimension;
      this.variant := variant;
      this.endType := endType;
    }

    /** The checked construction: a dimension below one is an `ArgumentOutOfRangeException`. */
    static method Create(dimension: int, variant: Variant, endType: EndType)
      returns (r: Result<SplineMultiDimension>)
      ensures r.Failure? <==> dimension <= 0
      ensures r.Failure? ==> r.error == ArgumentOutOfRangeException
      ensures r.Success? ==> r.value.Valid() && r.value.dimension == dimension && r.value.Points() == 0
    {
      if dimension <= 0 {
        return Failure(ArgumentOutOfRangeException);
      }
      var m := new SplineMultiDimension(dimension, variant, endType);
      return Success(m);
    }

    /** Empties every axis. */
    method Initialize()
      requires Valid()
      modifies axes
      ensures Valid() && Points() == 0
      ensures forall i :: 0 <= i < |axes| ==> axes[i].v == []
    {
      var i := 0;
      while i < |axes|
        invariant 0 <= i <= |axes|
        invariant forall j :: 0 <= j < |axes| ==>
                    axes[j].Valid() && axes[j].variant == variant && axes[j].endType == endType
        invariant forall j :: 0 <= j < i ==> axes[j].v == []
        invariant forall j :: i <= j < |axes| ==> axes[j].v == old(axes[j].v)
      {
        axes[i].Initialize();
        i := i + 1;
      }
    }

    /** `Set(v, points)`: clears every axis, checks the rows, then gives axis k the k-th
        coordinate of the first `points` rows. On failure every axis is left empty. */
    method Set(values: Option<seq<seq<real>>>, points: int) returns (r: Outcome)
      requires Valid()
      modifies axes
      ensures Valid()
      ensures values.None? ==> r == Fail(ArgumentNullException)
      ensures values.Some? ==>
                r == match RowsError(values.value, points, dimension)
                     case Some(e) => Fail(e)
                     case None => Pass
      ensures r.Fail? ==> Points() == 0
      ensures r.Pass? ==> 0 <= points <= |values.value| && Points() == points
      ensures r.Pass? ==> forall k :: 0 <= k < |axes| ==> axes[k].v == Column(values.value, k, points)
    {
      Initialize();
      if values.None? {
        return Fail(ArgumentNullException);
      }
      var rows := values.value;
      var i := 0;
      while i < points
        invariant 0 <= i && i <= |rows|
        invariant points >= 0 ==> i <= points
        invariant forall j :: 0 <= j < i ==> |rows[j]| == dimension
      {
        if i >= |rows| {
          return Fail(IndexOutOfRangeException);
        }
        if |rows[i]| != dimension {
          return Fail(ArgumentException);
        }
        i := i + 1;
      }
      if points < 0 {
        return Fail(OverflowException);
      }
      var s := new real[points];
      var k := 0;
      while k < dimension
        invariant 0 <= k <= dimension
        invariant forall j :: 0 <= j < |axes| ==>
                    axes[j].Valid() && axes[j].variant == variant && axes[j].endType == endType
        invariant forall j :: 0 <= j < k ==> axes[j].v == Column(rows, j, points)
        invariant forall j :: k <= j < |axes| ==> axes[j].v == []
      {
        var jj := 0;
        while jj < points
          modifies s
          invariant 0 <= jj <= points
          invariant forall q :: 0 <= q < jj ==> s[q] == rows[q][k]
        {
          s[jj] := rows[jj][k];
          jj := jj + 1;
        }
        axes[k].SetAll(s[..]);
        k := k + 1;
      }
      return Pass;
    }

    /** After a successful `Set(v, points)` the curve passes through every given point:
        at knot j the vector of axis values is the j-th row. */
    lemma SetInterpolates(rows: seq<seq<real>>, points: nat, j: int)
      requires Valid() && points <= |rows|
      requires forall q :: 0 <= q < points ==> |rows[q]| == dimension
      requires forall k :: 0 <= k < |axes| ==> axes[k].v == Column(rows, k, points)
      requires 0 <= j < points
      ensures forall k :: 0 <= k < dimension ==> axes[k].Value(j as real) == Some(rows[j][k])
    {
      forall k | 0 <= k < dimension
        ensures axes[k].Value(j as real) == Some(rows[j][k])
      {
        axes[k].ValueAtKnot(j);
      }
    }

    /** `Set(params v)`: a missing array is an `ArgumentNullException`; otherwise the same as
        `Set(v, v.Length)`. */
    method SetAll(values: Option<seq<seq<real>>>) returns (r: Outcome)
      requires Valid()
      modifies axes
      ensures Valid()
      ensures values.None? ==> r == Fail(ArgumentNullException)
      ensures values.Some? ==>
                r == if RowsError(values.value, |values.value|, dimension).Some?
                     then Fail(ArgumentException) else Pass
      ensures r.Pass? ==> forall k :: 0 <= k < |axes| ==>
                axes[k].v == Column(values.value, k, |values.value|)
    {
      if values.None? {
        return Fail(ArgumentNullException);
      }
      r := Set(values, |values.value|);
    }

    /** `Insert(index, new_v)`: the index and the dimension are checked before any axis
        changes; then every axis inserts its coordinate. */
    method Insert(index: int, x: seq<real>) returns (r: Outcome)
      requires Valid()
      modifies axes
      ensures Valid()
      ensures r.Pass? <==> 0 <= index <= old(Points()) && |x| == dimension
      ensures r.Fail? ==> r.error == ArgumentOutOfRangeException
      ensures r.Fail? ==> forall k :: 0 <= k < |axes| ==> axes[k].v == old(axes[k].v)
      ensures r.Pass? ==> forall k :: 0 <= k < |axes| ==> axes[k].v == Inserted(old(axes[k].v), index, x[k])
    {
      if index < 0 || index > Points() || |x| != dimension {
        return Fail(ArgumentOutOfRangeException);
      }
      var i := 0;
      while i < dimension
        invariant 0 <= i <= dimension
        invariant forall j :: 0 <= j < |axes| ==>
                    axes[j].Valid() && axes[j].variant == variant && axes[j].endType == endType
        invariant forall j :: 0 <= j < i ==> axes[j].v == Inserted(old(axes[j].v), index, x[j])
        invariant forall j :: i <= j < |axes| ==> axes[j].v == old(axes[j].v)
      {
        var outcome := axes[i].Insert(index, x[i]);
        i := i + 1;
      }
      return Pass;
    }

    /** `Remove(index)`: the index is checked before any axis changes. */
    method Remove(index: int) returns (r: Outcome)
      requires Valid()
      modifies axes
      ensures Valid()
      ensures r.Pass? <==> 0 <= index < old(Points())
      ensures r.Fail? ==> r.error == ArgumentOutOfRangeException
      ensures r.Fail? ==> forall k :: 0 <= k < |axes| ==> axes[k].v == old(axes[k].v)
      ensures r.Pass? ==> forall k :: 0 <= k < |axes| ==> axes[k].v == Removed(old(axes[k].v), index)
    {
      if index < 0 || index >= Points() {
        return Fail(ArgumentOutOfRangeException);
      }
      var i := 0;
      while i < dimension
        invariant 0 <= i <= dimension
        invariant forall j :: 0 <= j < |axes| ==>
                    axes[j].Valid() && axes[j].variant == variant && axes[j].endType == endType
        invariant forall j :: 0 <= j < i ==> axes[j].v == Removed(old(axes[j].v), index)
        invariant forall j :: i <= j < |axes| ==> axes[j].v == old(axes[j].v)
      {
        var outcome := axes[i].Remove(index);
        i := i + 1;
      }
      return Pass;
    }

    /** `Value(t)`: the vector of the axes' values. */
    method Value(t: real) returns (r: seq<Option<real>>)
      requires Valid()
      ensures |r| == dimension
      ensures forall i :: 0 <= i < dimension ==> r[i] == axes[i].Value(t)
    {
      var a := new Option<real>[dimension](_ => None);
      var i := 0;
      while i < dimension
        invariant 0 <= i <= dimension
        invariant forall j :: 0 <= j < i ==> a[j] == axes[j].Value(t)
      {
        a[i] := axes[i].Value(t);
        i := i + 1;
      }
      return a[..];
    }

    /** `Diff(t)`: the vector of the axes' first derivatives. */
    method Diff(t: real) returns (r: seq<Option<real>>)
      requires Valid()
      ensures |r| == dimension
      ensures forall i :: 0 <= i < dimension ==> r[i] == axes[i].Diff(t)
    {
      var a := new Option<real>[dimension](_ => None);
      var i := 0;
      while i < dimension
        invariant 0 <= i <= dimension
        invariant forall j :: 0 <= j < i ==> a[j] == axes[j].Diff(t)
      {
        a[i] := axes[i].Diff(t);
        i := i + 1;
      }
      return a[..];
    }

    /** `Diff(t, n)`: the vector of the axes' n-th derivatives. */
    method DiffN(t: real, n: nat) returns (r: seq<Option<real>>)
      requires Valid()
      ensures |r| == dimension
      ensures forall i :: 0 <= i < dimension ==> r[i] == axes[i].DiffN(t, n)
    {
      var a := new Option<real>[dimension](_ => None);
      var i := 0;
      while i < dimension
        invariant 0 <= i <= dimension
        invariant forall j :: 0 <= j < i ==> a[j] == axes[j].DiffN(t, n)
      {
        a[i] := axes[i].DiffN(t, n);
        i := i + 1;
      }
      return a[..];
    }

    /** `==`: the same object, or two of equal dimension whose axes are pairwise equal under
        the base `Spline ==` (the operator the generic class resolves to), so the pieces are not
        compared. */
    static method Equals(s1: SplineMultiDimension?, s2: SplineMultiDimension?) returns (r: bool)
      requires s1 != null ==> s1.Valid()
      requires s2 != null ==> s2.Valid()
      ensures r <==> (s1 == s2 ||
                      (s1 != null && s2 != null && s1.dimension == s2.dimension &&
                       forall i :: 0 <= i < s1.dimension ==> CubicSpline.SplineEquals(s1.axes[i], s2.axes[i])))
    {
      if s1 == s2 {
        return true;
      }
      if s1 == null || s2 == null {
        return false;
      }
      if s1.dimension != s2.dimension {
        return false;
      }
      var i := 0;
      while i < s1.dimension
        invariant 0 <= i <= s1.dimension
        invariant forall j :: 0 <= j < i ==> CubicSpline.SplineEquals(s1.axes[j], s2.axes[j])
      {
        if !CubicSpline.SplineEquals(s1.axes[i], s2.axes[i]) {
          return false;
        }
        i := i + 1;
      }
      return true;
    }
  }
}
