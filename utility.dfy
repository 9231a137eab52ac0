/** `Utility`: doubling the sampling density of a list of values (`Polyploidize`), with the
    new midpoints estimated by `Resampling`. The square root `Resampling` takes is a parameter:
    nothing here depends on how it is computed. */
module Utility {
  import opened Wrappers
  import opened EndTypes
  import opened Numerics
  import opened Extension

  /** Limits a one-sided curvature estimate d by twice the adjacent difference d12, keeping it
      on its own side of zero. */
  function ClampSlope(d: real, d12: real): (r: real)
    ensures r > 0.0 ==> d > 0.0
    ensures r < 0.0 ==> d < 0.0
    ensures d == 0.0 ==> r == 0.0
    ensures Abs(r) <= Abs(d)
    ensures d > 0.0 ==> r <= Max(0.0, 2.0 * d12)
    ensures d < 0.0 ==> r >= Min(0.0, 2.0 * d12)
  {
    if d > 0.0 then Max(0.0, Min(d12 * 2.0, d))
    else if d < 0.0 then Min(0.0, Max(d12 * 2.0, d))
    else d
  }

  /** The clamped estimate on the left of the gap, from the three values before it. */
  function LeftEstimate(sm3: real, sm2: real, sm1: real): real {
    ClampSlope(2.0 * (sm1 - sm2) - (sm2 - sm3), sm1 - sm2)
  }

  /** The clamped estimate on the right of the gap, from the three values after it. */
  function RightEstimate(sp1: real, sp2: real, sp3: real): real {
    ClampSlope(2.0 * (sp1 - sp2) - (sp2 - sp3), sp1 - sp2)
  }

  /** The value midway between sm1 and sp1: their mean, corrected by the geometric mean of the
      two clamped estimates when they have the same strict sign. */
  function Resampling(sqrt: real -> real, sm3: real, sm2: real, sm1: real,
                      sp1: real, sp2: real, sp3: real): real
  {
    var dm := LeftEstimate(sm3, sm2, sm1);
    var dp := RightEstimate(sp1, sp2, sp3);
    (sm1 + sp1 + Correction(sqrt, dm, dp)) / 2.0
  }

  /** The correction `dd`: zero unless both estimates have the same strict sign. */
  function Correction(sqrt: real -> real, dm: real, dp: real): (dd: real)
    ensures !(dm > 0.0 && dp > 0.0) && !(dm < 0.0 && dp < 0.0) ==> dd == 0.0
  {
    if dm > 0.0 && dp > 0.0 then sqrt(dm * dp)
    else if dm < 0.0 && dp < 0.0 then -sqrt(dm * dp)
    else 0.0
  }

  /** The correction does not depend on which estimate is on which side. */
  lemma CorrectionSymmetric(sqrt: real -> real, dm: real, dp: real)
    ensures Correction(sqrt, dm, dp) == Correction(sqrt, dp, dm)
  {
    assert dm * dp == dp * dm;
  }

  /** When the two unclamped estimates are not of one strict sign, the result is the plain
      midpoint: clamping never creates agreement in sign. */
  lemma ResamplingMidpoint(sqrt: real -> real, sm3: real, sm2: real, sm1: real,
                           sp1: real, sp2: real, sp3: real)
    requires var dm, dp := 2.0 * (sm1 - sm2) - (sm2 - sm3), 2.0 * (sp1 - sp2) - (sp2 - sp3);
             !(dm > 0.0 && dp > 0.0) && !(dm < 0.0 && dp < 0.0)
    ensures Resampling(sqrt, sm3, sm2, sm1, sp1, sp2, sp3) == (sm1 + sp1) / 2.0
  {
  }

  /** Reading the six values in reverse order gives the same midpoint. */
  lemma ResamplingMirror(sqrt: real -> real, sm3: real, sm2: real, sm1: real,
                         sp1: real, sp2: real, sp3: real)
    ensures Resampling(sqrt, sm3, sm2, sm1, sp1, sp2, sp3) == Resampling(sqrt, sp3, sp2, sp1, sm1, sm2, sm3)
  {
    var dm := LeftEstimate(sm3, sm2, sm1);
    var dp := RightEstimate(sp1, sp2, sp3);
    assert LeftEstimate(sp3, sp2, sp1) == dp;
    assert RightEstimate(sm1, sm2, sm3) == dm;
    CorrectionSymmetric(sqrt, dm, dp);
  }

  /** On six equally spaced samples of a straight line, the result is exact. */
  lemma ResamplingOnLine(sqrt: real -> real, s: real, d: real)
    ensures Resampling(sqrt, s, s + d, s + 2.0 * d, s + 3.0 * d, s + 4.0 * d, s + 5.0 * d)
         == s + 2.5 * d
  {
    assert LeftEstimate(s, s + d, s + 2.0 * d) == d;
    assert RightEstimate(s + 3.0 * d, s + 4.0 * d, s + 5.0 * d) == -d;
  }

  /** The midpoint `Polyploidize` inserts between `a[i-1]` and `a[i]`: `Resampling` of the six
      values around the gap, with the list padded at both ends by linear extrapolation, the
      same padding an open spline uses. */
  function Gap(sqrt: real -> real, a: seq<real>, i: int): real
    requires |a| >= 2
  {
    Resampling(sqrt, Extended(Open, a, i - 3), Extended(Open, a, i - 2), Extended(Open, a, i - 1),
               Extended(Open, a, i), Extended(Open, a, i + 1), Extended(Open, a, i + 2))
  }

  /** `Polyploidize(array)`: the values with a resampled midpoint inserted into every gap. */
  method Polyploidize(input: Option<seq<real>>, sqrt: real -> real) returns (r: Result<seq<real>>)
    ensures input.None? ==> r == Failure(ArgumentNullException)
    ensures input.Some? && |input.value| < 1 ==> r == Failure(ArgumentException)
    ensures input.Some? && |input.value| == 1 ==> r == Success(input.value)
    ensures input.Some? && |input.value| >= 2 ==>
              var a := input.value;
              && r.Success? && |r.value| == 2 * |a| - 1
              && (forall i :: 0 <= i < |a| ==> r.value[2 * i] == a[i])
              && (forall i :: 1 <= i < |a| ==> r.value[2 * i - 1] == Gap(sqrt, a, i))
  {
    if input.None? {
      return Failure(ArgumentNullException);
    }
    var a := input.value;
    if |a| < 1 {
      return Failure(ArgumentException);
    }
    var length := |a|;
    if length <= 1 {
      return Success(a);
    }
    var ret := new real[length * 2 - 1];
    var shift := new real[length + 4];
    var i := 0;
    while i < length
      invariant 0 <= i <= length
      invariant forall j :: 0 <= j < i ==> ret[2 * j] == a[j]
      invariant forall q :: 2 <= q < i + 2 ==> shift[q] == a[q - 2]
    {
      shift[i + 2] := a[i];
      ret[i * 2] := shift[i + 2];
      i := i + 1;
    }
    i := 1;
    while i <= 2
      invariant 1 <= i <= 3
      invariant forall j :: 0 <= j < length ==> ret[2 * j] == a[j]
      invariant forall q :: 3 - i <= q <= length + i ==> shift[q] == Extended(Open, a, q - 2)
    {
      shift[2 - i] := Extrapolate(a[0], a[1], i);
      shift[length + 2 + i - 1] := Extrapolate(a[length - 1], a[length - 2], i);
      assert shift[2 - i] == Extended(Open, a, -i);
      assert shift[length + 1 + i] == Extended(Open, a, length - 1 + i);
      i := i + 1;
    }
    ResampleGaps(sqrt, a, shift, ret);
    return Success(ret[..]);
  }

  /** The last loop of `Polyploidize`: every odd slot of `ret` gets the resampled gap, read from
      the padded copy `shift` of the values. */
  method ResampleGaps(sqrt: real -> real, a: seq<real>, shift: array<real>, ret: array<real>)
    requires |a| >= 2 && shift.Length == |a| + 4 && ret.Length == 2 * |a| - 1 && ret != shift
    requires forall q :: 0 <= q < |a| + 4 ==> shift[q] == Extended(Open, a, q - 2)
    requires forall j :: 0 <= j < |a| ==> ret[2 * j] == a[j]
    modifies ret
    ensures forall j :: 0 <= j < |a| ==> ret[2 * j] == a[j]
    ensures forall j :: 1 <= j < |a| ==> ret[2 * j - 1] == Gap(sqrt, a, j)
  {
    var i := 1;
    while i < |a|
      invariant 1 <= i <= |a|
      invariant forall j :: 0 <= j < |a| ==> ret[2 * j] == a[j]
      invariant forall j :: 1 <= j < i ==> ret[2 * j - 1] == Gap(sqrt, a, j)
    {
      ret[i * 2 - 1] := Resampling(sqrt, shift[i - 1], shift[i], shift[i + 1],
                                   shift[i + 2], shift[i + 3], shift[i + 4]);
      assert shift[i - 1] == Extended(Open, a, i - 3) && shift[i] == Extended(Open, a, i - 2);
      assert shift[i + 1] == Extended(Open, a, i - 1) && shift[i + 2] == Extended(Open, a, i);
      assert shift[i + 3] == Extended(Open, a, i + 1) && shift[i + 4] == Extended(Open, a, i + 2);
      i := i + 1;
    }
  }

  /** Under `Open` padding, an arithmetic progression stays one beyond its ends. */
  lemma ProgressionExtends(a: seq<real>, d: real, p: int)
    requires |a| >= 2 && forall i :: 0 < i < |a| ==> a[i] == a[i - 1] + d
    ensures Extended(Open, a, p + 1) == Extended(Open, a, p) + d
  {
    assert a[1] == a[0] + d;
    assert a[|a| - 1] == a[|a| - 2] + d;
    if p < 0 {
      OpenExtensionIsLinear(a, p + 1);
    } else if p >= |a| - 1 {
      OpenExtensionIsLinear(a, p);
    }
  }

  /** The midpoints `Polyploidize` inserts into an arithmetic progression are exact. */
  lemma {:induction false} GapOnProgression(sqrt: real -> real, a: seq<real>, d: real, i: int)
    requires |a| >= 2 && 1 <= i < |a|
    requires forall j :: 0 < j < |a| ==> a[j] == a[j - 1] + d
    ensures Gap(sqrt, a, i) == (a[i - 1] + a[i]) / 2.0
  {
    var s := Extended(Open, a, i - 3);
    ProgressionExtends(a, d, i - 3);
    ProgressionExtends(a, d, i - 2);
    ProgressionExtends(a, d, i - 1);
    ProgressionExtends(a, d, i);
    ProgressionExtends(a, d, i + 1);
    assert Extended(Open, a, i - 2) == s + d;
    assert Extended(Open, a, i - 1) == s + 2.0 * d;
    assert Extended(Open, a, i) == s + 3.0 * d;
    assert Extended(Open, a, i + 1) == s + 4.0 * d;
    assert Extended(Open, a, i + 2) == s + 5.0 * d;
    ResamplingOnLine(sqrt, s, d);
  }
}
