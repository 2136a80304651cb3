# curvedraw curve core in Dafny

A Dafny model of the curve core of curvedraw, a small interactive editor of
planar curves:

- `curve.dfy`, module `Curves`: the `Curve` data model. A curve is an ordered
  sequence of homogeneous control points (x, y, weight) plus a type tag drawn
  from LINEAR, HERMITE and BSPLINE. The module has the index-checked edits
  `add_point`, `remove_point`, `set_point` and `set_weight`, the accessors,
  and the `nearest_point` query.
- `curve_eval.dfy`, module `CurveEval`: `interpolate` (both overloads),
  `operator()` and `map_param`. This covers the mapping of a global parameter
  t to a segment and a local parameter, the linear fall-back, the four-point
  spline window and the rational divide of the B-spline scheme.
- `curvefile.dfy`, module `CurveFile`: the curve-block writer
  (`curve_type_str`, `save_curve`, and both `save_curves` overloads).
  Output streams are sequences of lines.

Numbers are mathematical reals. Every operation is a pure function, or a
method without side effects, on immutable values. That makes the `const`
promise of the accessors and evaluators (src/curve.h:31-34 and :39-41) hold by
construction: evaluating or querying a curve cannot change it.

Two behaviours of the code are reported under Findings: the segment index in
`interpolate` is not clamped, and the `GCURVES` header goes to the diagnostic
stream rather than into the file.

## Model

| member | source | states |
|---|---|---|
| Curves.NewCurve | src/curve.cc:4-7 | a new curve has the requested type and no control points |
| Curves.DefaultCurveIsEmptyHermite | src/curve.h:21 | a default-constructed curve has type HERMITE and no points |
| Curves.SetType | src/curve.cc:9-12 | changing the type sets the tag and leaves every control point as it was |
| Curves.SetTypeGetType | src/curve.cc:9-17 | `get_type` (`Curves.GetType`) observes the type just set by `set_type`; re-setting the current type changes nothing |
| Curves.AddPoint | src/curve.cc:19-22 | exactly one triple (p.x, p.y, weight) is appended; all earlier points and the type are unchanged |
| Curves.AddPointDefaultWeight | src/curve.h:26 | a point added without a weight gets weight 1 |
| Curves.RemovePoint | src/curve.cc:24-31 | fails with no change iff idx is outside [0, n); on success the result is the old sequence with element idx deleted and the others in order |
| Curves.RemovePointMultiset | src/curve.cc:24-31 | a successful removal takes away exactly one occurrence of the removed point and nothing else |
| Curves.RemoveUndoesAdd | src/curve.cc:19-31 | removing the last point undoes an append, and that removal succeeds |
| Curves.SetPoint | src/curve.cc:69-76 | fails with no change iff idx is out of range; on success only element idx changes, to (p.x, p.y, weight) |
| Curves.SetPointResetsWeight | src/curve.h:36 | setting a point without a weight resets its weight to 1 and stores the new position |
| Curves.SetWeight | src/curve.cc:78-85 | fails with no change iff idx is out of range; on success only element idx changes, and it keeps its x and y |
| Curves.SetWeightOverrides | src/curve.cc:78-85 | a later weight overrides an earlier one; writing back the current weight leaves the curve unchanged |
| Curves.AccessorsAgree | src/curve.cc:54-67 | the position and weight accessors (`Curves.GetPoint`, `Curves.GetWeight`) together return the stored homogeneous triple (`Curves.GetHomoPoint`) for every in-range index |
| Curves.PointCountTracksEdits | src/curve.cc:19-31 | `get_point_count` (`Curves.GetPointCount`, src/curve.cc:49-52) grows by one on an append, shrinks by one exactly on a successful removal, and is kept by every other edit |
| Curves.NearestPoint | src/curve.cc:33-47 | returns -1 iff the curve is empty; otherwise an in-range index at minimal squared distance to p, and the lowest such index on ties |
| Curves.NearestIsUnique | src/curve.cc:33-47 | the minimal-distance, lowest-index answer is unique, so the result of nearest_point is fully determined |
| CurveEval.RawLocal | src/curve.cc:101-105 | renormalising t within segment idx0 yields t(n-1) - idx0 |
| CurveEval.SegmentAsWritten | src/curve.cc:98-107 | idx0 is the floor of t(n-1), idx1 = idx0 + 1, and the local parameter is in [0, 1] |
| CurveEval.AsWrittenInRangeIff | src/curve.cc:98-99 | the unclamped idx0 and idx1 lie inside the curve exactly when 0 <= t < 1; at t = 1, idx1 = n |
| CurveEval.AsWrittenLocalIsFraction | src/curve.cc:105-107 | over the reals the unclamped local parameter is the fractional part of t(n-1), so the clamps to [0, 1] never fire |
| CurveEval.SegmentOf | src/curve.cc:98-107 | with idx0 clamped, idx0 lies in [0, n-2], idx1 = idx0 + 1 lies in [1, n-1], and the local parameter lies in [0, 1] |
| CurveEval.SegmentAgreesOnUnitInterval | src/curve.cc:98-107 | on 0 <= t < 1 the clamped segment equals the one the code computes |
| CurveEval.SegmentReconstructsParameter | src/curve.cc:101-107 | on [0, 1], the segment index plus the local parameter equals t(n-1) |
| CurveEval.SegmentClampsOutside | src/curve.cc:98-107 | with the corrected clamp, t <= 0 maps to segment 0 at local 0 and t >= 1 maps to segment n-2 at local 1 |
| CurveEval.Window | src/curve.cc:112-113 | the spline neighbours lie in [0, n-1]; each is one step outward, or duplicates the segment end at the curve's ends |
| CurveEval.Lerp3 | src/curve.cc:109-110 | the linear blend of two homogeneous points returns the first at local 0 and the second at local 1 |
| CurveEval.Dehomogenize | src/curve.cc:119-122 | with a non-zero weight the result times the weight gives back the blended x and y; with weight zero no division happens |
| CurveEval.EvalSegment | src/curve.cc:109-126 | on a valid segment, the linear path (LINEAR or at most two points) returns the segment's start at local 0 and its end at local 1; so does the HERMITE path whenever the Catmull-Rom blend passes through its middle points |
| CurveEval.InterpolateAsWritten | src/curve.cc:87-127 | the evaluator as written: (0,0) with no points, the single point's (x,y) for one point, and an out-of-range read is reported with its index outside [0, n) |
| CurveEval.AsWrittenFaultsAtOne | src/curve.cc:98-110 | for n >= 2 the code evaluated at t = 1 reads index n, one past the last control point |
| CurveEval.AsWrittenFaultsBelowZero | src/curve.cc:98-110 | for n >= 2 and t < 0 the code reads a negative index |
| CurveEval.Interpolate | src/curve.cc:87-95 | with 0 points the result is (0,0); with 1 point it is that point's (x,y) for every t and type |
| CurveEval.AsWrittenAgreesOnUnitInterval | src/curve.cc:87-127 | wherever the code's reads stay in range (0 <= t < 1) it returns what the clamped evaluator returns |
| CurveEval.EvaluateAsWritten | src/curve.cc:129-132 | `interpolate(t)` as the code writes it: evaluation under the stored type, (0,0) with no points, the single point with one, and an unchecked read reported with its index outside [0, n) |
| CurveEval.Evaluate | src/curve.cc:129-132 | `interpolate(t)` over the corrected evaluator: (0,0) with no points and the single point's (x,y) with one, for every t |
| CurveEval.Apply | src/curve.cc:134-137 | `operator()` over the corrected evaluator: (0,0) with no points and the single point's (x,y) with one, for every t |
| CurveEval.EvaluateAsWrittenVsEvaluate | src/curve.cc:129-132 | `interpolate(t)` as written returns the corrected value for 0 <= t < 1 and, with n >= 2, reads index n at t = 1 |
| CurveEval.EvaluateUsesStoredType | src/curve.cc:129-137 | interpolate(t) and operator() evaluate with the stored type; evaluating under another type equals retagging the curve and evaluating it |
| CurveEval.ShortCurveIgnoresType | src/curve.cc:109-110 | with at most two points the type makes no difference |
| CurveEval.InterpolateClampsParameter | src/curve.cc:105-107 | with the corrected clamp, t outside [0, 1] evaluates as the nearer end of [0, 1] |
| CurveEval.BreakpointSegment | src/curve.cc:98-107 | with the corrected clamp, the breakpoint t = k/(n-1) maps to segment k at local 0, or to segment n-2 at local 1 for the last point; for k < n-1 this is also the segment the code computes |
| CurveEval.LinearHitsBreakpoints | src/curve.cc:109-110 | with the corrected clamp, under LINEAR or with two points, the result at the breakpoint t = k/(n-1) is control point k |
| CurveEval.LinearEndpoints | src/curve.cc:109-110 | with the corrected clamp, under LINEAR or with two points, t = 0 gives the first control point and t = 1 the last |
| CurveEval.HermiteHitsBreakpoints | src/curve.cc:112-116 | with the corrected clamp, if the Catmull-Rom blend passes through its middle points, HERMITE evaluation hits every control point at its breakpoint |
| CurveEval.HermiteEndpoints | src/curve.cc:112-116 | with the corrected clamp, if the Catmull-Rom blend passes through its middle points, HERMITE evaluation starts at the first control point and ends at the last |
| CurveEval.AsWrittenHitsInteriorBreakpoints | src/curve.cc:98-116 | as written, at every breakpoint t = k/(n-1) with k < n-1 the evaluator returns control point k under LINEAR, with two points, and under HERMITE when the Catmull-Rom blend passes through its middle points |
| CurveEval.TwoPointMidpoint | src/curve.cc:109-110 | on a two-point curve t = 0.5 gives the arithmetic midpoint, under every type |
| CurveEval.LinearStaysInSegmentBox | src/curve.cc:109-110 | with the corrected clamp, linear evaluation lies in the box spanned by the two ends of the segment t falls in |
| CurveEval.EvalSegmentIsLocal | src/curve.cc:109-118 | a segment's value depends only on the control points inside its four-point window |
| CurveEval.MapParam | src/curve.cc:139-144 | the mapped parameter lies in [0, n-1]; it is 0 for x <= 0 and n-1 for x >= 1 |
| CurveEval.MapParamMatchesSegment | src/curve.cc:139-144 | on [0, 1) the mapped parameter's floor is the evaluator's segment index and its fraction is the local parameter |
| CurveFile.TypeName | src/curvefile.cc:28-39 | every type gets a non-empty name of lower-case letters, so it is one whitespace-free token |
| CurveFile.TypeNameInjective | src/curvefile.cc:28-39 | the three names are distinct, so a name identifies its type |
| CurveFile.Decimal | src/curvefile.cc:45 | a `%d` count is rendered as one or more decimal digits, with a leading zero only for 0 |
| CurveFile.DecimalRoundTrip | src/curvefile.cc:45 | reading a rendered count back gives the count |
| CurveFile.SaveCurve | src/curvefile.cc:41-52 | a block opens with `curve {`, then the type line, then the cpcount line, then one cp line (`CurveFile.CpLine`) per point in index order with its x, y and weight, then `}`; the call always succeeds |
| CurveFile.CpCountMatchesCpLines | src/curvefile.cc:45-49 | the number on the cpcount line equals the number of cp lines in the block, and no other line of the block is a cp line |
| CurveFile.Blocks | src/curvefile.cc:20-24 | the concatenated blocks never contain the `GCURVES` marker line |
| CurveFile.WriteBlocks | src/curvefile.cc:20-25 | the loop writes every block in order; it stops only at a failing block, so it always succeeds |
| CurveFile.Header | src/curvefile.cc:18 | the header is two lines: the `GCURVES` marker, then a count line that is not the marker |
| CurveFile.HeaderCountReadsBack | src/curvefile.cc:18 | the count line is `count ` followed by decimal digits that read back as the number of curves |
| CurveFile.SaveCurves | src/curvefile.cc:16-26 | the stream writer as written: always succeeds; the header goes to the diagnostic stream; the file holds only the blocks and never the marker |
| CurveFile.SaveCurvesWithHeader | src/curvefile.cc:16-26 | the corrected stream writer: the file holds the header and then the blocks, and the marker appears only as its first line |
| CurveFile.SaveCurvesToFile | src/curvefile.cc:6-14 | the file writer as written fails with nothing written iff the file cannot be opened; otherwise it calls the stream writer as written, so the file holds only the blocks and the header goes to the diagnostic stream |
| CurveFile.SaveCurvesToFileWithHeader | src/curvefile.cc:6-14 | the file writer over the corrected stream writer fails with nothing written iff the file cannot be opened; otherwise the file holds the header and then the blocks |

## Left out

- `move_point`: src/app.cc:419 and :436 call it, but src/curve.h does not declare it and src/curve.cc does not define it, so there is nothing to model.
- CurveEval.Evaluate: built on the corrected evaluator, so at t = 1 it returns the last control point where `interpolate(t)` as written reads `cp[n]`. `CurveEval.EvaluateAsWritten` models the code as written.
- CurveEval.Apply: likewise built on the corrected evaluator; `operator()` as written is `CurveEval.EvaluateAsWritten`.
- `load_curves`: it is unimplemented (src/curvefile.cc:64-67), and its signature disagrees with src/curvefile.h:11-12. The model has no parser and no save/load round trip.
- `catmull_rom_spline` and `bspline` belong to a vector-math library that is not part of this model. They stay uninterpreted, as the function-valued fields of `CurveEval.Basis`. `lerp` is modelled as a + (b - a)t component-wise, weight included.
- `%g` number formatting stays abstract, as a parameter `fmt: real -> string`. `%d` is modelled by `CurveFile.Decimal`.
- Single-precision floats: the model uses reals. Rounding in `floor(t*(n-1))` and in the renormalisation of t is not modelled, and neither are NaN or infinite inputs.
- Curves.NearestPoint: the `FLT_MAX` start value is modelled as "no best yet". Over floats, a point whose squared distance is FLT_MAX or more is never chosen, and a curve holding only such points yields -1. The model does not reproduce this.
- `get_homo_point`, `get_point` and `get_weight` do not check their index. The model gives them a precondition that the index is in range.
- `save_curve` calls `curve->size()` (src/curvefile.cc:45-46), which src/curve.h does not declare. The model reads it as the point count.
- The `count` argument of `save_curves` is the length of the curve list in the model. A count that differs from the number of curves passed is not modelled.
- File I/O (`fopen`, `fclose`, newline terminators) is left out. Streams are sequences of lines, and opening the file is a boolean parameter of `CurveFile.SaveCurvesToFile`.
- The editor's user interface, windowing, widgets and event handling (src/app.cc, src/main*.cc, src/widgets.cc and the related headers) are not part of this model.

## Findings

| source | as written | input that shows it | evidently intended | confidence | as-written member | corrected member |
|---|---|---|---|---|---|---|
| src/curve.cc:98-99 | `idx0 = floor(t*(n-1))` with no clamp, then `cp[idx0]` and `cp[idx1]` are read | any curve with n >= 2 points at t = 1.0. The renderer samples this value as its last point (src/app.cc:160-162). idx1 = n, so `cp[n]` is read past the end. Any t < 0 reads a negative index | idx0 clamped to [0, n-2], so t = 1 gives the last control point | not executed; high | CurveEval.AsWrittenFaultsAtOne | CurveEval.LinearEndpoints |
| src/curvefile.cc:18 | the `GCURVES` marker and the count line are written to stderr | any call of `save_curves`. The file then holds only `curve { ... }` blocks, and saving no curves gives an empty file | the header written to the output file ahead of the blocks | not executed; medium | CurveFile.SaveCurves | CurveFile.SaveCurvesWithHeader |

`CurveEval.InterpolateAsWritten` models the first row's code as written.
`CurveEval.Interpolate` is the corrected evaluator, and `Evaluate` and `Apply`
use it; `CurveEval.EvaluateAsWritten` is `interpolate(t)` as written.
`CurveFile.SaveCurvesToFile` models the file overload as written, over the
stream writer as written; `CurveFile.SaveCurvesToFileWithHeader` is the same
overload over the corrected one.
