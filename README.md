# Spline — a verified model of uniform cubic Hermite splines

This project models the core of the C# *Spline* library in Dafny. The library interpolates
control values `v[0..N-1]`, placed at the integer knots `0, 1, …, N-1`, with a piecewise cubic
curve. Knot `i` owns one piece `a + b·h + c·h² + d·h³` for local `h ∈ [0, 1]`.

A spline's kind decides how the tangent at each knot is estimated:

- Catmull-Rom and monotone splines look at three neighbouring values.
- Akima and pixel splines look at five.

The end type decides what happens beyond the ends:

- `Open`: the first and last pieces are quadratic and the curve continues as a straight line.
- `Close`: the curve is periodic.

A spline keeps its pieces in step with its control values. Inserting, removing or replacing one
value recomputes only a small window of pieces around it.

The central result is about these edits. `Insert`, `Remove` and `SetPoint` each leave the spline
`Valid()`: its pieces are exactly the ones a full `Set` of the new values would build. This holds
for every kind, both end types and every size, and it relies on the window being wide enough.
The multi-dimensional wrapper keeps one such spline per coordinate. `Polyploidize` doubles the
resolution of a sampled signal.

How the model is laid out:

- `CubicSegments`: the piece datatype and its five factories.
- `CatmullRom`, `Monotone`, `Akima`, `Pixel`: the four tangent estimators.
- `Extension`, `Neighbor2`, `Neighbor4`, `Tangents`: the tangent at a knot near the ends.
  - `Extension` holds the linear or periodic extension of the values.
  - `Neighbor2` and `Neighbor4` hold the `Grad(int)` of each neighbourhood.
  - `Tangents` dispatches between them.
- `Canonical`: the piece each slot must hold, and which slots one refresh writes.
- `MonotoneShape`: every piece of the monotone spline follows the direction of its chord.
- `Locality`, `Edits`: the proof that the edit windows repair every piece an edit invalidates.
- `Splines.CubicSpline`: the stateful spline. It is one class for the base class `Spline`, the
  abstract `CubicSpline`, the two neighbourhood classes and the four concrete kinds. The kind is
  a constant field.
- `MultiDimension.SplineMultiDimension`: the D-dimensional wrapper.
- `Utility`: `Polyploidize` and `Resampling`.
- `Numerics`, `Wrappers`, `EndTypes`: shared arithmetic, the `Option`/`Result` wrappers and the
  exceptions.

Conventions:

- `double` is modelled as `real`.
- A thrown exception is a `Failure`/`Fail` value naming the exception.
- A `NaN` result is `None`.
- A null array is `None`.

## Model

| member | source | states |
|---|---|---|
| `CubicSegments.LeftEnd` | Spline/CubicSpline/CubicSegment.cs:16-24 | the quadratic piece (d = 0) through v0 at 0 and v1 at 1, with slope g1 at 1 |
| `CubicSegments.RightEnd` | Spline/CubicSpline/CubicSegment.cs:27-35 | the quadratic piece through v0 and v1 with slope g0 at 0; its end slope b + 2c is 2(v1 − v0) − g0 |
| `CubicSegments.Interval` | Spline/CubicSpline/CubicSegment.cs:38-47 | the Hermite piece: values v0, v1 and slopes g0, g1 at the two ends |
| `CubicSegments.Linear` | Spline/CubicSpline/CubicSegment.cs:50-57 | the straight line v0 + t(v1 − v0) with constant slope v1 − v0, for every t |
| `CubicSegments.Constant` | Spline/CubicSpline/CubicSegment.cs:60-62 | constant value v and zero slope for every t |
| `CubicSegments.Equal` | Spline/CubicSpline/CubicSegment.cs:87-89 | segment `==` holds exactly when the four coefficients agree |
| `CubicSegments.Zero` | Spline/CubicSpline/CubicSpline.cs:35 | the placeholder `new CubicSegment()`: value and slope 0 everywhere |
| `CubicSegments.TaylorValue` | Spline/CubicSpline/CubicSegment.cs:65-84 | Diff and the n-th derivatives are the derivatives of Value: the cubic's Taylor expansion at t is exact |
| `CubicSegments.TaylorDiff` | Spline/CubicSpline/CubicSegment.cs:70-84 | the same exact expansion for the first, second and third derivatives |
| `CubicSegments.DiffNBeyondCubic` | Spline/CubicSpline/CubicSegment.cs:75-84 | every derivative above the third is zero |
| `CubicSegments.AtZero` | Spline/CubicSpline/CubicSegment.cs:65-72 | at h = 0 the value and slope are the coefficients a and b |
| `CubicSegments.Segment.Value` | Spline/CubicSpline/CubicSegment.cs:65-67 | the cubic a + bt + ct² + dt³; its meaning is carried by `TaylorValue` and `AtZero`, and each factory's contract states its values at 0 and 1 |
| `CubicSegments.Segment.Diff` | Spline/CubicSpline/CubicSegment.cs:70-72 | the derivative b + 2ct + 3dt²; `TaylorValue` proves it is the derivative of `Value`, and `IntervalFollowsChord`, `LeftEndFollowsChord` and `RightEndFollowsChord` bound its sign |
| `CubicSegments.Segment.DiffN` | Spline/CubicSpline/CubicSegment.cs:75-84 | the n-th derivative; `TaylorDiff` proves orders 0 to 3 are the successive derivatives and `DiffNBeyondCubic` that higher orders are 0 |
| `CubicSegments.IntervalDiffForm` | Spline/CubicSpline/CubicSegment.cs:38-47 | the Hermite piece's slope at h is g0(1−h)² + g1h² − 2k·h(1−h), with k = g0 + g1 − 3(v1 − v0) |
| `CubicSegments.QuadraticFormNonNegative` | Spline/CubicSpline/CubicSegment.cs:38-47 | that form is non-negative on [0, 1] when g0 and g1 are non-negative and at least 2k |
| `CubicSegments.IntervalRises` | Spline/CubicSpline/CubicSegment.cs:38-47 | a Hermite piece whose end slopes lie in [0, 2(v1 − v0)] has a non-negative slope on all of [0, 1] |
| `CubicSegments.IntervalFollowsChord` | Spline/CubicSpline/CubicSegment.cs:38-47 | with both end slopes of the chord's sign and at most twice the chord, the Hermite piece's slope keeps the chord's sign on [0, 1], rising or falling |
| `CubicSegments.LeftEndFollowsChord` | Spline/CubicSpline/CubicSegment.cs:16-24 | the quadratic left end piece keeps its chord's sign on [0, 1] when its one slope lies within twice the chord |
| `CubicSegments.RightEndFollowsChord` | Spline/CubicSpline/CubicSegment.cs:27-35 | the same for the quadratic right end piece |
| `CatmullRom.Grad` | Spline/CubicSpline/CatmullRomSpline.cs:11-13 | the Catmull-Rom estimator; its properties are `GradIsMeanSlope`, `GradIgnoresCenter`, `GradAntisymmetric` and `GradExactOnLines` |
| `CatmullRom.GradIsMeanSlope` | Spline/CubicSpline/CatmullRomSpline.cs:11-13 | the Catmull-Rom tangent is the mean of the two one-sided slopes |
| `CatmullRom.GradIgnoresCenter` | Spline/CubicSpline/CatmullRomSpline.cs:11-13 | the centre value does not enter the tangent |
| `CatmullRom.GradAntisymmetric` | Spline/CubicSpline/CatmullRomSpline.cs:11-13 | mirroring the neighbours negates the tangent |
| `CatmullRom.GradExactOnLines` | Spline/CubicSpline/CatmullRomSpline.cs:11-13 | collinear points get the slope of their line |
| `Monotone.Grad` | Spline/CubicSpline/MonotoneSpline.cs:11-15 | the monotone estimator; its properties are `GradFlatAtExtremum`, `GradHarmonicMean`, `GradExactOnLines` and `GradWithinChords` |
| `Monotone.GradFlatAtExtremum` | Spline/CubicSpline/MonotoneSpline.cs:11-15 | where the data do not rise (or fall) strictly on both sides the tangent is 0 |
| `Monotone.HarmonicMeanBounds` | Spline/CubicSpline/MonotoneSpline.cs:11-15 | the harmonic mean of two positive slopes lies between them and below twice either |
| `Monotone.GradHarmonicMean` | Spline/CubicSpline/MonotoneSpline.cs:11-15 | on strictly monotone data the tangent is the harmonic mean of the slopes: the same sign, between them, and at most twice either |
| `Monotone.GradExactOnLines` | Spline/CubicSpline/MonotoneSpline.cs:11-15 | collinear points get the slope of their line |
| `Monotone.GradWithinChords` | Spline/CubicSpline/MonotoneSpline.cs:11-15 | on any data, the tangent lies between 0 and twice each adjacent chord, on that chord's side of 0 |
| `Akima.Grad` | Spline/CubicSpline/AkimaSpline.cs:12-35 | the Akima estimator on five control values; its properties are `GradBetweenTwoLines`, `GradIsWeightedSlope` and `GradBetweenSlopes` |
| `Akima.SlopeGrad` | Spline/CubicSpline/AkimaSpline.cs:12-35 | the same estimator on the four slopes; its properties are `SlopeGradIsWeightedSlope` and `SlopeGradBetween` |
| `Akima.WeightedMeanBetween` | Spline/CubicSpline/AkimaSpline.cs:12-35 | a mean with non-negative weights lies between its two values |
| `Akima.WeightedMeanDegenerate` | Spline/CubicSpline/AkimaSpline.cs:12-35 | a vanishing weight selects the other value; equal values give that value |
| `Akima.SlopeGradIsWeightedSlope` | Spline/CubicSpline/AkimaSpline.cs:12-35 | the short-circuit branches agree with Akima's weighted formula wherever the weights do not both vanish |
| `Akima.GradBetweenTwoLines` | Spline/CubicSpline/AkimaSpline.cs:12-35 | where both sides are straight, the tangent is the mean of the two slopes |
| `Akima.GradIsWeightedSlope` | Spline/CubicSpline/AkimaSpline.cs:12-35 | on control values, the tangent is Akima's weighted slope wherever its weights do not both vanish |
| `Akima.SlopeGradBetween` | Spline/CubicSpline/AkimaSpline.cs:12-35 | the slope form's result lies between the two central slopes |
| `Akima.GradBetweenSlopes` | Spline/CubicSpline/AkimaSpline.cs:12-35 | the Akima tangent always lies between the slopes on either side of the knot |
| `Pixel.Grad` | Spline/CubicSpline/PixelSpline.cs:8-28 | the pixel estimator; its properties are `GradFallsBackToMonotone` and `GradDependsOnLevel`, with `BlendParameter` and `QuotientInUnitInterval` for the blended branch |
| `Pixel.BlendParameter` | Spline/CubicSpline/PixelSpline.cs:13 | for slopes of opposite sign the blend parameter lies strictly in (0.15, 0.85) |
| `Pixel.QuotientInUnitInterval` | Spline/CubicSpline/PixelSpline.cs:13 | m / (m − n) lies strictly between 0 and 1 for slopes of opposite sign, so the division is defined |
| `Pixel.DivideByBlendDenominator` | Spline/CubicSpline/PixelSpline.cs:15-21 | the blend's quotient: multiplied back by t, 1 − t and 1 − t it gives the dividend |
| `Pixel.ExpandDenominator` | Spline/CubicSpline/PixelSpline.cs:15-21 | multiplying by t, 1 − t and 1 − t in turn is multiplying by t³ − 2t² + t |
| `Pixel.DivideByBlendDenominatorIsQuotient` | Spline/CubicSpline/PixelSpline.cs:15-21 | for t in (0, 1) the denominator t³ − 2t² + t is non-zero and the stepwise quotient is exactly x / (t³ − 2t² + t) |
| `Pixel.GradFallsBackToMonotone` | Spline/CubicSpline/PixelSpline.cs:8-28 | where the two sign tests agree the pixel tangent is the monotone one |
| `Pixel.GradDependsOnLevel` | Spline/CubicSpline/PixelSpline.cs:11-15 | the blended branch is not invariant under adding a constant: two inputs one apart give 0 and 4 |
| `Extension.ExtrapolateStep` | Spline/Utility/Utility.cs:29-32 | each step of end extrapolation repeats the end chord |
| `Extension.OpenExtensionIsLinear` | Spline/CubicSpline/CubicSplineNeighbor2.cs:74-108 | the Open extension beyond either end continues the end chord as a line (the phantom points of the end tangents) |
| `Extension.OpenPhantoms` | Spline/CubicSpline/CubicSplineNeighbor4.cs:74-133 | the two phantom points beyond each open end are 2v₀ − v₁ and 3v₀ − 2v₁ (and their mirror images at the right end), as the five-point placement writes them |
| `Extension.CloseExtensionIsPeriodic` | Spline/CubicSpline/CubicSplineNeighbor2.cs:74-108 | the Close extension has period N and is v[p mod N] |
| `Extension.CloseExtensionNear` | Spline/CubicSpline/CubicSplineNeighbor2.cs:74-108 | within one period of the ends, the Close neighbour index is shifted by one period |
| `Neighbor2.Grad` | Spline/CubicSpline/CubicSplineNeighbor2.cs:74-108 | `Grad(index)` succeeds exactly for in-range indices and otherwise throws `ArgumentException` |
| `Neighbor2.GradIsEstimateOnExtension` | Spline/CubicSpline/CubicSplineNeighbor2.cs:74-108 | for N ≥ 3 the tangent at i is the estimator applied to the extended points i−1, i, i+1 (Open: extrapolated phantoms; Close: wrapped) |
| `Neighbor2.GradFewPoints` | Spline/CubicSpline/CubicSplineNeighbor2.cs:74-108 | one point has slope 0; two points have the same slope at both ends |
| `Neighbor2.CatmullRomOpenEndTangents` | Spline/CubicSpline/CubicSplineNeighbor2.cs:74-108 | an Open Catmull-Rom spline's end tangents are the end chords |
| `Neighbor4.Grad` | Spline/CubicSpline/CubicSplineNeighbor4.cs:74-133 | `Grad(index)` succeeds exactly for in-range indices and otherwise throws `ArgumentOutOfRangeException` |
| `Neighbor4.GradIsEstimateOnExtension` | Spline/CubicSpline/CubicSplineNeighbor4.cs:74-133 | for N ≥ 3 the tangent at i is the estimator applied to the extended points i−2..i+2 |
| `Neighbor4.GradFewPoints` | Spline/CubicSpline/CubicSplineNeighbor4.cs:74-133 | one point has slope 0; two points have the same slope at both ends |
| `Tangents.Radius` | Spline/CubicSpline/CubicSplineNeighbor4.cs:74-133 | 1 for the three-point kinds, 2 for the five-point kinds |
| `Tangents.Grad` | Spline/CubicSpline/CubicSpline.cs:120 | the per-kind `Grad(int)` succeeds exactly for in-range indices |
| `Tangents.TangentIsEstimate` | Spline/CubicSpline/CubicSplineNeighbor4.cs:74-133 | for N ≥ 3 every kind's tangent is its estimator on the extended points |
| `Tangents.EstimateLocal` | Spline/CubicSpline/CubicSplineNeighbor4.cs:74-133 | a tangent depends only on the extended points within its radius |
| `Tangents.EstimatePeriodic` | Spline/CubicSpline/CubicSplineNeighbor2.cs:74-108 | under Close the tangent at p + N is the tangent at p |
| `Canonical.Seg` | Spline/CubicSpline/CubicSpline.cs:123-159 | the piece a refresh writes into slot s; its properties are `SegInterpolates`, `SegTangentsMatch`, `TwoPointEndsAgree`, `LastPieceContinuesSlope` and, for the monotone kind, `MonotoneShape.PieceFollowsChord` |
| `Canonical.EndSlope` | Spline/CubicSpline/CubicSpline.cs:144 | the slope read back from the penultimate piece is that piece's slope at its right end |
| `Canonical.Build` | Spline/CubicSpline/CubicSpline.cs:38-40 | the full refresh gives one canonical piece per control value |
| `Canonical.TouchesSelf` | Spline/CubicSpline/CubicSpline.cs:123-159 | refreshing slot s rewrites slot s |
| `Canonical.TouchesInRange` | Spline/CubicSpline/CubicSpline.cs:129-135 | a refresh only writes existing slots; under Open an out-of-range index writes nothing |
| `Canonical.TwoPointEndsAgree` | Spline/CubicSpline/CubicSpline.cs:138-145 | with two Open points the left-end piece equals the right-end piece that overwrites it |
| `Canonical.SegInterpolates` | Spline/CubicSpline/CubicSpline.cs:123-159 | every piece starts at its knot's value and, except the last Open one, ends at the next knot's value |
| `Canonical.SegTangentsMatch` | Spline/CubicSpline/CubicSpline.cs:148-157 | at every interior (or Close) knot both adjoining pieces have the knot's tangent: the curve is C¹ there |
| `Canonical.LastPieceContinuesSlope` | Spline/CubicSpline/CubicSpline.cs:144-145 | the final Open line continues at the slope the penultimate piece ends with |
| `MonotoneShape.TangentWithinChords` | Spline/CubicSpline/CubicSplineNeighbor2.cs:74-108 | a monotone tangent with a neighbour on each side (every knot when Close, the interior ones when Open) lies within both adjacent chords |
| `MonotoneShape.IntervalPieceFollowsChord` | Spline/CubicSpline/CubicSpline.cs:148-157 | each Hermite piece of the monotone spline keeps the sign of its chord on [0, 1] |
| `MonotoneShape.OpenEndPieceFollowsChord` | Spline/CubicSpline/CubicSpline.cs:138-145 | so do the two quadratic end pieces and the straight extension of an Open monotone spline, the last one following the last chord |
| `MonotoneShape.PieceFollowsChord` | Spline/CubicSpline/CubicSpline.cs:123-159 | every piece of a monotone spline, of every size and both end types, keeps the sign of its chord on [0, 1] |
| `MonotoneShape.OpenFollowsMonotoneData` | Spline/CubicSpline/CubicSpline.cs:123-159 | on non-decreasing data every piece of an Open monotone spline has a non-negative slope, and on non-increasing data a non-positive one |
| `Locality.SegIsRef` | Spline/CubicSpline/CubicSpline.cs:123-159 | for N ≥ 3 each canonical piece is its reference form over the extended points |
| `Locality.RefLocal` | Spline/CubicSpline/CubicSpline.cs:123-159 | a piece depends only on the extended points from its reference window and on its role |
| `Locality.WindowCovers` | Spline/CubicSpline/CubicSplineNeighbor4.cs:13-68 | after an edit each slot is refreshed by the window, or lies left of it unchanged, or lies right of it shifted by the edit |
| `Locality.KeptLeft` | Spline/CubicSpline/CubicSplineNeighbor4.cs:13-68 | a slot left of the window, which no refresh in it reaches, already holds its new canonical piece |
| `Locality.KeptRight` | Spline/CubicSpline/CubicSplineNeighbor4.cs:13-68 | a slot right of the window, which no refresh in it reaches, holds the new canonical piece in its shifted old slot |
| `Locality.WindowRepairs` | Spline/CubicSpline/CubicSplineNeighbor4.cs:13-68 | refreshing the window turns the shifted old pieces into exactly the canonical pieces of the new values |
| `Edits.Inserted` | Spline/CubicSpline/CubicSplineNeighbor2.cs:18 | `List.Insert`: x at k, the values before k kept, those after shifted by one |
| `Edits.Removed` | Spline/CubicSpline/CubicSplineNeighbor2.cs:39 | `List.RemoveAt`: the values after k shift down by one |
| `Edits.RemoveUndoesInsert` | Spline/CubicSpline/CubicSplineNeighbor2.cs:13-52 | removing what was inserted restores the list |
| `Edits.InsertWindow` | Spline/CubicSpline/CubicSplineNeighbor4.cs:13-31 | on a large enough spline the insertion window k−R−1..k+R covers every piece the insertion changes |
| `Edits.RemoveWindow` | Spline/CubicSpline/CubicSplineNeighbor4.cs:34-52 | on a large enough spline the removal window k−R−1..k+R−1 covers every piece the removal changes |
| `Edits.ReplaceWindow` | Spline/CubicSpline/CubicSplineNeighbor4.cs:55-68 | on a large enough spline the window k−R−1..k+R covers every piece a replacement changes |
| `Splines.CubicSpline.Points` | Spline/BaseClass/Spline.cs:23 | the number of control values, equal to the number of pieces |
| `Splines.CubicSpline.constructor` | Spline/BaseClass/Spline.cs:14-20 | a new spline of the given kind and end type, empty and valid |
| `Splines.CubicSpline.Initialize` | Spline/CubicSpline/CubicSpline.cs:44-47 | clears values and pieces |
| `Splines.CubicSpline.ReflashSegment` | Spline/CubicSpline/CubicSpline.cs:123-159 | writes the canonical piece into exactly the slots `Touches` names and leaves every other slot as it was |
| `Splines.CubicSpline.RefreshWindow` | Spline/CubicSpline/CubicSplineNeighbor2.cs:22-24 | after refreshing indices first..last each touched slot is canonical, each untouched slot keeps its piece, and no slot holds anything else |
| `Splines.CubicSpline.RefreshAll` | Spline/CubicSpline/CubicSpline.cs:38-40 | refreshing every index makes the spline valid |
| `Splines.CubicSpline.Set` | Spline/CubicSpline/CubicSpline.cs:19-41 | clears the spline; `points = 0` succeeds empty; a null, empty or short array throws `ArgumentException`; a negative count throws `ArgumentOutOfRangeException`; otherwise it holds the first `points` values and is valid |
| `Splines.CubicSpline.SetAll` | Spline/BaseClass/Spline.cs:26-28 | holds exactly the given values, valid |
| `Splines.CubicSpline.Insert` | Spline/CubicSpline/CubicSplineNeighbor2.cs:13-31 | succeeds exactly for 0 ≤ index ≤ N and leaves the inserted list with exactly the pieces a full rebuild gives; otherwise it throws (`ArgumentException` for three-point kinds, `ArgumentOutOfRangeException` for five) and changes nothing |
| `Splines.CubicSpline.Remove` | Spline/CubicSpline/CubicSplineNeighbor2.cs:34-52 | succeeds exactly for 0 ≤ index < N and leaves the shortened list with the fully rebuilt pieces; otherwise it throws and changes nothing |
| `Splines.CubicSpline.SetPoint` | Spline/CubicSpline/CubicSplineNeighbor2.cs:55-68 | succeeds exactly for 0 ≤ index < N and leaves the updated list with the fully rebuilt pieces; otherwise the list indexer throws `ArgumentOutOfRangeException` and nothing changes |
| `Splines.CubicSpline.Value` | Spline/CubicSpline/CubicSpline.cs:50-68 | `NaN` exactly when there are no points |
| `Splines.CubicSpline.Diff` | Spline/CubicSpline/CubicSpline.cs:71-89 | `NaN` exactly when there are no points |
| `Splines.CubicSpline.DiffN` | Spline/CubicSpline/CubicSpline.cs:92-117 | `NaN` exactly when there are no points; order 0 is Value, order 1 is Diff, any order above three is 0 |
| `Splines.CubicSpline.ValueAtKnot` | Spline/CubicSpline/CubicSpline.cs:50-68 | the spline passes through every control point: Value(j) = v[j] |
| `Splines.CubicSpline.ClosePeriodic` | Spline/CubicSpline/CubicSpline.cs:63-66 | a Close spline and all its derivatives have period N |
| `Splines.CubicSpline.OpenLeftExtension` | Spline/CubicSpline/CubicSpline.cs:61 | left of 0 an Open spline is the tangent line at 0, and its higher derivatives are 0 |
| `Splines.CubicSpline.OpenBeyondLastKnot` | Spline/CubicSpline/CubicSpline.cs:56-59 | from the last knot on, an Open spline evaluates the last piece |
| `Splines.CubicSpline.OpenRightExtension` | Spline/CubicSpline/CubicSpline.cs:142-145 | beyond the last knot an Open spline is the line through v[N−1] at the penultimate piece's end slope |
| `Splines.CubicSpline.MonotoneOpenSlope` | Spline/CubicSpline/CubicSpline.cs:71-89 | an Open monotone spline through non-decreasing data has a non-negative slope at every t, and through non-increasing data a non-positive one |
| `Splines.CubicSpline.GetPoint` | Spline/BaseClass/Spline.cs:59-61 | the control value at an in-range index; any other index throws `ArgumentOutOfRangeException` |
| `Splines.CubicSpline.IsInRangeAsWritten` | Spline/BaseClass/Spline.cs:54-56 | the range test as written; `IsInRangeAsWrittenAdmitsBadIndex` proves it accepts every index |
| `Splines.CubicSpline.IsInRangeAsWrittenAdmitsBadIndex` | Spline/BaseClass/Spline.cs:54-56 | the test written with a logical or accepts every index, including N, where GetPoint throws |
| `Splines.CubicSpline.IsInRange` | Spline/BaseClass/Spline.cs:54-56 | true exactly for the indices GetPoint accepts |
| `Splines.CubicSpline.SplineEquals` | Spline/BaseClass/Spline.cs:67-79 | the base `Spline ==`: the same object, or both non-null with equal end type and equal control values |
| `Splines.CubicSpline.SplineEqualsIsEquivalence` | Spline/BaseClass/Spline.cs:67-79 | the base `Spline ==` is reflexive, symmetric and transitive |
| `Splines.CubicSpline.Equals` | Spline/CubicSpline/CubicSpline.cs:162-173 | two nulls throw `NullReferenceException`; otherwise equal exactly when the base equality holds and every piece agrees |
| `Splines.CubicSpline.SameKindEqualityIsDataEquality` | Spline/CubicSpline/CubicSpline.cs:162-173 | for splines of one kind the piece comparison adds nothing to the base equality |
| `MultiDimension.Column` | Spline/BaseClass/SplineMultiDimension.cs:54-57 | the k-th coordinate of each of the first `points` rows |
| `MultiDimension.SplineMultiDimension.Points` | Spline/BaseClass/SplineMultiDimension.cs:24 | the common number of points of every axis |
| `MultiDimension.SplineMultiDimension.constructor` | Spline/BaseClass/SplineMultiDimension.cs:11-21 | D fresh, distinct, empty, valid axes of one kind and end type |
| `MultiDimension.SplineMultiDimension.Create` | Spline/BaseClass/SplineMultiDimension.cs:11-21 | a dimension ≤ 0 throws `ArgumentOutOfRangeException`; otherwise an empty valid D-dimensional spline |
| `MultiDimension.SplineMultiDimension.Initialize` | Spline/BaseClass/SplineMultiDimension.cs:86-90 | empties every axis |
| `MultiDimension.SplineMultiDimension.Set` | Spline/BaseClass/SplineMultiDimension.cs:39-61 | clears all axes; null → `ArgumentNullException`; a row of the wrong dimension, reached first → `ArgumentException`; reading past the array → `IndexOutOfRangeException`; a negative count → `OverflowException`; otherwise axis k holds column k |
| `MultiDimension.SplineMultiDimension.SetInterpolates` | Spline/BaseClass/SplineMultiDimension.cs:39-61 | after Set the curve passes through every given point, coordinate by coordinate |
| `MultiDimension.SplineMultiDimension.SetAll` | Spline/BaseClass/SplineMultiDimension.cs:30-36 | null → `ArgumentNullException`; otherwise `Set(v, v.Length)`: a wrong-dimension row throws `ArgumentException`, else every column is set |
| `MultiDimension.SplineMultiDimension.Insert` | Spline/BaseClass/SplineMultiDimension.cs:64-72 | a bad index or a wrong-dimension vector throws `ArgumentOutOfRangeException` before anything changes; otherwise each axis inserts its coordinate |
| `MultiDimension.SplineMultiDimension.Remove` | Spline/BaseClass/SplineMultiDimension.cs:75-83 | a bad index throws `ArgumentOutOfRangeException` before anything changes; otherwise each axis loses the point |
| `MultiDimension.SplineMultiDimension.Value` | Spline/BaseClass/SplineMultiDimension.cs:93-101 | the vector of each axis's value at t |
| `MultiDimension.SplineMultiDimension.Diff` | Spline/BaseClass/SplineMultiDimension.cs:104-112 | the vector of each axis's slope at t |
| `MultiDimension.SplineMultiDimension.DiffN` | Spline/BaseClass/SplineMultiDimension.cs:115-123 | the vector of each axis's n-th derivative at t |
| `MultiDimension.SplineMultiDimension.Equals` | Spline/BaseClass/SplineMultiDimension.cs:126-142 | the same object, or both non-null with equal dimension and pairwise equal axes under the base `Spline ==` |
| `Utility.ClampSlope` | Spline/Utility/Utility.cs:48-60 | the clamped second difference keeps its sign, never grows, and is bounded by twice the nearer slope |
| `Utility.Correction` | Spline/Utility/Utility.cs:62-70 | the correction is 0 unless both clamped differences have the same strict sign |
| `Utility.CorrectionSymmetric` | Spline/Utility/Utility.cs:62-70 | the correction is symmetric in its two differences |
| `Utility.Resampling` | Spline/Utility/Utility.cs:42-73 | the new sample between sm1 and sp1; its properties are `ResamplingMidpoint`, `ResamplingMirror` and `ResamplingOnLine` |
| `Utility.ResamplingMidpoint` | Spline/Utility/Utility.cs:42-73 | when the raw second differences do not share a strict sign, the new sample is the midpoint of its two neighbours |
| `Utility.ResamplingMirror` | Spline/Utility/Utility.cs:42-73 | resampling is symmetric under reversing the six samples |
| `Utility.ResamplingOnLine` | Spline/Utility/Utility.cs:42-73 | on an arithmetic progression the new sample is the midpoint of its two neighbours |
| `Utility.Polyploidize` | Spline/Utility/Utility.cs:5-40 | null → `ArgumentNullException`; empty → `ArgumentException`; one value → a copy; otherwise 2N−1 values: the originals at even indices and, between each pair, the resampled gap over the extrapolated neighbours |
| `Utility.Gap` | Spline/Utility/Utility.cs:34-37 | one pass of the resampling loop: the new sample for gap i over the padded values; `GapOnProgression` proves it is the midpoint on a progression |
| `Utility.ResampleGaps` | Spline/Utility/Utility.cs:34-37 | every odd output slot holds the resampled gap over the padded values, and the even slots keep the originals |
| `Utility.ProgressionExtends` | Spline/Utility/Utility.cs:29-32 | the end extrapolation of an arithmetic progression continues the progression |
| `Utility.GapOnProgression` | Spline/Utility/Utility.cs:34-37 | doubling an arithmetic progression inserts exactly the midpoints |

## Left out

- Floating point: `double` is `real`, so rounding is not modelled. `NaN` and infinite arguments are not modelled either; the model returns `None` only for an empty spline.
- `Math.Sqrt` in `Resampling` is a function parameter `sqrt`, and `Math.Abs`, `Math.Min` and `Math.Max` are exact. The properties proved do not depend on what `sqrt` returns.
- `Pixel.Grad` divides by the denominator's factors t, (1 − t) and (1 − t) in turn. `Pixel.DivideByBlendDenominatorIsQuotient` proves this equals one division by `t³ − 2t² + t` over the reals; in `double` the rounding differs.
- Integer width: `(int)t`, `(int)Math.Floor(t)` and `points` are unbounded integers. Overflow for |t| ≥ 2³¹ is not modelled.
- The Open evaluation slot is `min(trunc t, N − 1)` (Spline/CubicSpline/CubicSpline.cs:56-59), so from t = N − 1 on the curve is the final straight piece.
- One class `Splines.CubicSpline` with a constant kind stands for `Spline`, `CubicSpline`, the two neighbourhood classes and the four concrete kinds. The `Spline.Construct<T>` reflection factory is `new CubicSpline(kind, endType)`.
- `Splines.CubicSpline.RefreshWindow` and `RefreshAll` are the source's `for` loops of `ReflashSegment` calls, factored out. `Insert`, `Remove` and `SetPoint` use them with the window bounds the source uses.
- `Splines.CubicSpline.Value`, `Diff` and `DiffN` have their slot selection proved in the lemmas `ValueAtKnot`, `ClosePeriodic`, `OpenLeftExtension`, `OpenBeyondLastKnot` and `OpenRightExtension`. Their own contracts state only the `NaN` case and the order dispatch.
- `Splines.CubicSpline.SetAll`: `Set(params double[])` with a null array dereferences `v.Length` and throws `NullReferenceException`. That call is not modelled; `SetAll` takes a non-null sequence.
- The `!=` operators are `!(==)`. `Equals(object)` and `GetHashCode` are left out: they are object plumbing, with no spline logic.
- `MultiDimension.SplineMultiDimension.Set` and `Insert`: a null `Vector` in the array, or a null `new_v`, throws `NullReferenceException` in the source. Vectors are modelled as non-null `seq<real>`.
- `MultiDimension.SplineMultiDimension.Equals` compares axes with the base `Spline ==`, because C# binds `!=` on the generic `SplineType : Spline` to the base operator. This ignores the pieces, as the source does.
- The `Algebra.Vector` type is a `seq<real>` of length D; that library is not part of this model.
- Concurrency and the test project are not modelled.

## Findings

| source | as written | input that shows it | evidently intended | confidence | as-written member | corrected member |
|---|---|---|---|---|---|---|
| Spline/BaseClass/Spline.cs:54-56 | `IsInRange` joins `index >= 0` and `index < Points` with a logical or, so it is true for every index | `index = Points`, which `GetPoint` rejects | `index >= 0 && index < Points` | not executed | `Splines.CubicSpline.IsInRangeAsWrittenAdmitsBadIndex` | `Splines.CubicSpline.IsInRange` |
