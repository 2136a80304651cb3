/** Evaluation of a curve at a global parameter t: the mapping of t to a
    segment and a local parameter, the linear fall-back, the four-point spline
    window and the rational divide of the B-spline scheme.

    The two cubic blending functions come from a vector-math library that is
    not part of this model; they are carried as the function-valued fields of a
    `Basis` and left uninterpreted. */
module CurveEval {
  import opened Curves

  /** A four-point blend evaluated at a local parameter. */
  type Blend = (Vec3, Vec3, Vec3, Vec3, real) -> Vec3

  datatype Basis = Basis(catmullRom: Blend, bspline: Blend)

  /** Outcome of an evaluation whose control-point reads are unchecked: a
      point, or an index read outside the control-point sequence. */
  datatype Eval = Value(v: Vec2) | OutOfBounds(index: int)

  /** The segment [idx0, idx1] a global parameter falls in, and the local
      parameter within it. */
  datatype Segment = Segment(idx0: int, idx1: int, local: real)

  function Clamp01(x: real): (r: real)
    ensures 0.0 <= r <= 1.0
    ensures 0.0 <= x <= 1.0 ==> r == x
  {
    if x < 0.0 then 0.0 else if x > 1.0 then 1.0 else x
  }

  function Lerp(p: real, q: real, t: real): real {
    p + (q - p) * t
  }

  /** Component-wise linear interpolation a + (b - a) t, weight included. */
  function Lerp3(a: Vec3, b: Vec3, t: real): (r: Vec3)
    ensures t == 0.0 ==> r == a
    ensures t == 1.0 ==> r == b
  {
    Vec3(Lerp(a.x, b.x, t), Lerp(a.y, b.y, t), Lerp(a.z, b.z, t))
  }

  /** Renormalises t within the parameter range [idx0/(n-1), (idx0+1)/(n-1)]
      of segment idx0, before clamping. */
  function RawLocal(n: int, t: real, idx0: int): (r: real)
    requires n >= 2
    ensures r == t * (n - 1) as real - idx0 as real
  {
    var m := (n - 1) as real;
    var dt := 1.0 / m;
    var t0 := idx0 as real * dt;
    var t1 := (idx0 + 1) as real * dt;
    assert t1 - t0 == dt;
    var r := (t - t0) / (t1 - t0);
    assert dt * m == 1.0;
    assert r * dt == t - t0;
    calc {
      r;
      r * (dt * m);
      (r * dt) * m;
      (t - t0) * m;
      t * m - idx0 as real * (dt * m);
    }
    r
  }

  /** The segment as the code computes it: idx0 is the floor of t(n-1)
      and is not clamped to a valid segment. */
  function SegmentAsWritten(n: int, t: real): (s: Segment)
    requires n >= 2
    ensures s.idx1 == s.idx0 + 1
    ensures s.idx0 as real <= t * (n - 1) as real < s.idx1 as real
    ensures 0.0 <= s.local <= 1.0
  {
    var idx0 := (t * (n - 1) as real).Floor;
    Segment(idx0, idx0 + 1, Clamp01(RawLocal(n, t, idx0)))
  }

  /** The segment with idx0 clamped to [0, n-2], so that idx0 and idx1 are
      always valid control-point indices. */
  function SegmentOf(n: int, t: real): (s: Segment)
    requires n >= 2
    ensures 0 <= s.idx0 <= n - 2 && s.idx1 == s.idx0 + 1
    ensures 0.0 <= s.local <= 1.0
  {
    var f := (t * (n - 1) as real).Floor;
    var idx0 := if f < 0 then 0 else if f > n - 2 then n - 2 else f;
    Segment(idx0, idx0 + 1, Clamp01(RawLocal(n, t, idx0)))
  }

  /** The indices the unclamped code reads lie inside the curve exactly when
      0 <= t < 1: at t = 1 it reads index n, below 0 a negative index. */
  lemma AsWrittenInRangeIff(n: int, t: real)
    requires n >= 2
    ensures var s := SegmentAsWritten(n, t);
      0 <= s.idx0 && s.idx1 <= n - 1 <==> 0.0 <= t < 1.0
    ensures t == 1.0 ==> SegmentAsWritten(n, t).idx1 == n
  {
    var m := (n - 1) as real;
    var s := SegmentAsWritten(n, t);
    if t < 0.0 {
      assert t * m < 0.0;
    } else if t >= 1.0 {
      assert t * m >= m;
    } else {
      assert 0.0 <= t * m < m;
    }
  }

  /** Over the reals the clamps on the local parameter never fire in the
      unclamped code: the local parameter is the fractional part of t(n-1). */
  lemma AsWrittenLocalIsFraction(n: int, t: real)
    requires n >= 2
    ensures var s := SegmentAsWritten(n, t);
      s.local == t * (n - 1) as real - s.idx0 as real && s.local < 1.0
  {
  }

  /** On [0, 1) the clamped segment is the one the code computes. */
  lemma SegmentAgreesOnUnitInterval(n: int, t: real)
    requires n >= 2 && 0.0 <= t < 1.0
    ensures SegmentOf(n, t) == SegmentAsWritten(n, t)
  {
    AsWrittenInRangeIff(n, t);
  }

  /** On [0, 1] the segment index plus the local parameter recovers t(n-1):
      the mapping loses nothing. */
  lemma SegmentReconstructsParameter(n: int, t: real)
    requires n >= 2 && 0.0 <= t <= 1.0
    ensures var s := SegmentOf(n, t);
      s.idx0 as real + s.local == t * (n - 1) as real
  {
    var m := (n - 1) as real;
    if t < 1.0 {
      SegmentAgreesOnUnitInterval(n, t);
    } else {
      assert t * m == m;
    }
  }

  /** Outside [0, 1] the parameter is clamped to the nearer end of the curve. */
  lemma SegmentClampsOutside(n: int, t: real)
    requires n >= 2
    ensures t <= 0.0 ==> SegmentOf(n, t) == Segment(0, 1, 0.0)
    ensures t >= 1.0 ==> SegmentOf(n, t) == Segment(n - 2, n - 1, 1.0)
  {
    var m := (n - 1) as real;
    if t <= 0.0 {
      assert t * m <= 0.0;
    } else if t >= 1.0 {
      assert t * m >= m;
    }
  }

  /** The neighbours of segment [idx0, idx0+1] used by the spline schemes:
      one step outward on each side, duplicated at the ends of the curve. */
  function Window(n: int, idx0: int): (w: (int, int))
    requires 0 <= idx0 <= n - 2
    ensures 0 <= w.0 <= idx0 && idx0 + 1 <= w.1 <= n - 1
    ensures w.0 == idx0 <==> idx0 == 0
    ensures w.0 != idx0 ==> w.0 == idx0 - 1
    ensures w.1 == idx0 + 1 <==> idx0 + 1 == n - 1
    ensures w.1 != idx0 + 1 ==> w.1 == idx0 + 2
  {
    var idx1 := idx0 + 1;
    (if idx0 <= 0 then idx0 else idx0 - 1, if idx1 >= n - 1 then idx1 else idx1 + 1)
  }

  /** Divides the position by the weight when the weight is non-zero. */
  function Dehomogenize(h: Vec3): (r: Vec2)
    ensures h.z != 0.0 ==> r.x * h.z == h.x && r.y * h.z == h.y
    ensures h.z == 0.0 ==> r == XY(h)
  {
    if h.z != 0.0 then Vec2(h.x / h.z, h.y / h.z) else Vec2(h.x, h.y)
  }

  /** Evaluates one valid segment under a curve type; with two points or
      the LINEAR type it interpolates linearly between the segment ends. */
  function EvalSegment(cp: seq<Vec3>, s: Segment, kind: CurveType, b: Basis): (r: Vec2)
    requires 0 <= s.idx0 && s.idx1 == s.idx0 + 1 && s.idx1 < |cp|
    ensures (kind == Linear || |cp| <= 2) && s.local == 0.0 ==> r == XY(cp[s.idx0])
    ensures (kind == Linear || |cp| <= 2) && s.local == 1.0 ==> r == XY(cp[s.idx1])
    ensures kind == Hermite && PassesThroughEnds(b.catmullRom) && s.local == 0.0 ==> r == XY(cp[s.idx0])
    ensures kind == Hermite && PassesThroughEnds(b.catmullRom) && s.local == 1.0 ==> r == XY(cp[s.idx1])
  {
    if kind == Linear || |cp| <= 2 then
      XY(Lerp3(cp[s.idx0], cp[s.idx1], s.local))
    else
      var w := Window(|cp|, s.idx0);
      if kind == Hermite then
        XY(b.catmullRom(cp[w.0], cp[s.idx0], cp[s.idx1], cp[w.1], s.local))
      else
        Dehomogenize(b.bspline(cp[w.0], cp[s.idx0], cp[s.idx1], cp[w.1], s.local))
  }

  /** The evaluator as the code writes it, with the unchecked reads made
      explicit: a read outside the control points yields OutOfBounds. */
  function InterpolateAsWritten(c: Curve, t: real, kind: CurveType, b: Basis): (r: Eval)
    ensures |c.cp| == 0 ==> r == Value(Vec2(0.0, 0.0))
    ensures |c.cp| == 1 ==> r == Value(XY(c.cp[0]))
    ensures r.OutOfBounds? ==> r.index < 0 || r.index >= |c.cp|
  {
    var n := |c.cp|;
    if n == 0 then Value(Vec2(0.0, 0.0))
    else if n == 1 then Value(XY(c.cp[0]))
    else
      var s := SegmentAsWritten(n, t);
      if s.idx0 < 0 then OutOfBounds(s.idx0)
      else if s.idx1 > n - 1 then OutOfBounds(s.idx1)
      else Value(EvalSegment(c.cp, s, kind, b))
  }

  /** At t = 1, the parameter of the last sample a renderer draws, the
      code reads one past the last control point. */
  lemma AsWrittenFaultsAtOne(c: Curve, kind: CurveType, b: Basis)
    requires |c.cp| >= 2
    ensures InterpolateAsWritten(c, 1.0, kind, b) == OutOfBounds(|c.cp|)
  {
    AsWrittenInRangeIff(|c.cp|, 1.0);
  }

  /** Below t = 0 the code reads a negative index. */
  lemma AsWrittenFaultsBelowZero(c: Curve, t: real, kind: CurveType, b: Basis)
    requires |c.cp| >= 2 && t < 0.0
    ensures InterpolateAsWritten(c, t, kind, b).OutOfBounds?
    ensures InterpolateAsWritten(c, t, kind, b).index < 0
  {
    AsWrittenInRangeIff(|c.cp|, t);
  }

  /** The evaluator with idx0 clamped to a valid segment: a total function
      of the curve, the parameter and the type. */
  function Interpolate(c: Curve, t: real, kind: CurveType, b: Basis): (r: Vec2)
    ensures |c.cp| == 0 ==> r == Vec2(0.0, 0.0)
    ensures |c.cp| == 1 ==> r == XY(c.cp[0])
  {
    var n := |c.cp|;
    if n == 0 then Vec2(0.0, 0.0)
    else if n == 1 then XY(c.cp[0])
    else EvalSegment(c.cp, SegmentOf(n, t), kind, b)
  }

  /** Wherever the code's reads stay in range (0 <= t < 1) it computes
      what the clamped evaluator computes. */
  lemma AsWrittenAgreesOnUnitInterval(c: Curve, t: real, kind: CurveType, b: Basis)
    requires 0.0 <= t < 1.0
    ensures InterpolateAsWritten(c, t, kind, b) == Value(Interpolate(c, t, kind, b))
  {
    if |c.cp| >= 2 {
      SegmentAgreesOnUnitInterval(|c.cp|, t);
    }
  }

  /** Evaluation under the curve's own type, as the code writes it. */
  function EvaluateAsWritten(c: Curve, t: real, b: Basis): (r: Eval)
    ensures |c.cp| == 0 ==> r == Value(Vec2(0.0, 0.0))
    ensures |c.cp| == 1 ==> r == Value(XY(c.cp[0]))
    ensures r.OutOfBounds? ==> r.index < 0 || r.index >= |c.cp|
  {
    InterpolateAsWritten(c, t, c.kind, b)
  }

  /** Evaluation under the curve's own type, with the corrected clamp. */
  function Evaluate(c: Curve, t: real, b: Basis): (r: Vec2)
    ensures |c.cp| == 0 ==> r == Vec2(0.0, 0.0)
    ensures |c.cp| == 1 ==> r == XY(c.cp[0])
  {
    Interpolate(c, t, c.kind, b)
  }

  /** The call operator: the same as `Evaluate`. */
  function Apply(c: Curve, t: real, b: Basis): (r: Vec2)
    ensures |c.cp| == 0 ==> r == Vec2(0.0, 0.0)
    ensures |c.cp| == 1 ==> r == XY(c.cp[0])
  {
    Evaluate(c, t, b)
  }

  /** The code's own-type evaluation agrees with the corrected one where
      its reads stay in range, and reads one past the last point at t = 1. */
  lemma EvaluateAsWrittenVsEvaluate(c: Curve, t: real, b: Basis)
    ensures 0.0 <= t < 1.0 ==> EvaluateAsWritten(c, t, b) == Value(Evaluate(c, t, b))
    ensures |c.cp| >= 2 && t == 1.0 ==> EvaluateAsWritten(c, t, b) == OutOfBounds(|c.cp|)
  {
    if 0.0 <= t < 1.0 {
      AsWrittenAgreesOnUnitInterval(c, t, c.kind, b);
    }
    if |c.cp| >= 2 && t == 1.0 {
      AsWrittenFaultsAtOne(c, c.kind, b);
    }
  }

  /** Evaluating under another type equals retagging the curve and evaluating
      it under its own type; the call operator agrees with both. */
  lemma EvaluateUsesStoredType(c: Curve, t: real, kind: CurveType, b: Basis)
    ensures Evaluate(SetType(c, kind), t, b) == Interpolate(c, t, kind, b)
    ensures Apply(c, t, b) == Interpolate(c, t, c.kind, b)
  {
  }

  /** With at most two control points the type makes no difference. */
  lemma ShortCurveIgnoresType(c: Curve, t: real, k1: CurveType, k2: CurveType, b: Basis)
    requires |c.cp| <= 2
    ensures Interpolate(c, t, k1, b) == Interpolate(c, t, k2, b)
  {
  }

  /** Outside [0, 1] the clamped evaluator returns the value at the nearer end. */
  lemma InterpolateClampsParameter(c: Curve, t: real, kind: CurveType, b: Basis)
    ensures t <= 0.0 ==> Interpolate(c, t, kind, b) == Interpolate(c, 0.0, kind, b)
    ensures t >= 1.0 ==> Interpolate(c, t, kind, b) == Interpolate(c, 1.0, kind, b)
  {
    if |c.cp| >= 2 {
      SegmentClampsOutside(|c.cp|, t);
      SegmentClampsOutside(|c.cp|, 0.0);
      SegmentClampsOutside(|c.cp|, 1.0);
    }
  }

  /** At the breakpoint t = k/(n-1) the segment starts at k with local
      parameter 0, except at the last point, which ends segment n-2. */
  lemma BreakpointSegment(n: int, k: int)
    requires n >= 2 && 0 <= k <= n - 1
    ensures var s := SegmentOf(n, k as real / (n - 1) as real);
      if k < n - 1 then s.idx0 == k && s.local == 0.0
      else s.idx0 == n - 2 && s.local == 1.0
  {
    var m := (n - 1) as real;
    var t := k as real / m;
    assert t * m == k as real;
    assert (t * m).Floor == k;
  }

  /** Linear evaluation passes through every control point at its breakpoint. */
  lemma LinearHitsBreakpoints(c: Curve, k: int, kind: CurveType, b: Basis)
    requires |c.cp| >= 2 && 0 <= k <= |c.cp| - 1
    requires kind == Linear || |c.cp| == 2
    ensures Interpolate(c, k as real / (|c.cp| - 1) as real, kind, b) == XY(c.cp[k])
  {
    BreakpointSegment(|c.cp|, k);
  }

  /** Linear evaluation starts at the first control point and ends at the last. */
  lemma LinearEndpoints(c: Curve, kind: CurveType, b: Basis)
    requires |c.cp| >= 2 && (kind == Linear || |c.cp| == 2)
    ensures Interpolate(c, 0.0, kind, b) == XY(c.cp[0])
    ensures Interpolate(c, 1.0, kind, b) == XY(c.cp[|c.cp| - 1])
  {
    SegmentClampsOutside(|c.cp|, 0.0);
    SegmentClampsOutside(|c.cp|, 1.0);
  }

  /** Below the last breakpoint the code as written needs no clamp: at
      t = k/(n-1) with k < n-1 it returns control point k under LINEAR, with
      two points, and under HERMITE when the Catmull-Rom blend passes through
      its middle points. */
  lemma AsWrittenHitsInteriorBreakpoints(c: Curve, k: int, kind: CurveType, b: Basis)
    requires |c.cp| >= 2 && 0 <= k < |c.cp| - 1
    requires kind == Linear || |c.cp| == 2 || (kind == Hermite && PassesThroughEnds(b.catmullRom))
    ensures InterpolateAsWritten(c, k as real / (|c.cp| - 1) as real, kind, b) == Value(XY(c.cp[k]))
  {
    var m := (|c.cp| - 1) as real;
    var t := k as real / m;
    assert t * m == k as real;
    assert 0.0 <= t < 1.0;
    AsWrittenAgreesOnUnitInterval(c, t, kind, b);
    if kind == Linear || |c.cp| == 2 {
      LinearHitsBreakpoints(c, k, kind, b);
    } else {
      HermiteHitsBreakpoints(c, k, b);
    }
  }

  /** A blend that returns its second point at 0 and its third point at 1. */
  ghost predicate PassesThroughEnds(f: Blend) {
    forall a, p, q, d :: f(a, p, q, d, 0.0) == p && f(a, p, q, d, 1.0) == q
  }

  /** If the Catmull-Rom blend interpolates its middle points, HERMITE
      evaluation passes through every control point at its breakpoint. */
  lemma HermiteHitsBreakpoints(c: Curve, k: int, b: Basis)
    requires |c.cp| >= 3 && 0 <= k <= |c.cp| - 1
    requires PassesThroughEnds(b.catmullRom)
    ensures Interpolate(c, k as real / (|c.cp| - 1) as real, Hermite, b) == XY(c.cp[k])
  {
    BreakpointSegment(|c.cp|, k);
  }

  /** If the Catmull-Rom blend interpolates its middle points, HERMITE
      evaluation starts at the first control point and ends at the last. */
  lemma HermiteEndpoints(c: Curve, b: Basis)
    requires |c.cp| >= 3
    requires PassesThroughEnds(b.catmullRom)
    ensures Interpolate(c, 0.0, Hermite, b) == XY(c.cp[0])
    ensures Interpolate(c, 1.0, Hermite, b) == XY(c.cp[|c.cp| - 1])
  {
    SegmentClampsOutside(|c.cp|, 0.0);
    SegmentClampsOutside(|c.cp|, 1.0);
  }

  /** On a two-point curve t = 0.5 gives the midpoint, whatever the type. */
  lemma TwoPointMidpoint(c: Curve, kind: CurveType, b: Basis)
    requires |c.cp| == 2
    ensures Interpolate(c, 0.5, kind, b)
      == Vec2((c.cp[0].x + c.cp[1].x) / 2.0, (c.cp[0].y + c.cp[1].y) / 2.0)
  {
    assert SegmentOf(2, 0.5) == Segment(0, 1, 0.5);
  }

  /** Linear evaluation stays within the box spanned by the two ends of the
      segment t falls in. */
  lemma LinearStaysInSegmentBox(c: Curve, t: real, b: Basis)
    requires |c.cp| >= 2
    ensures var s := SegmentOf(|c.cp|, t);
      var r := Interpolate(c, t, Linear, b);
      var p := c.cp[s.idx0];
      var q := c.cp[s.idx1];
      Between(p.x, q.x, r.x) && Between(p.y, q.y, r.y)
  {
    var s := SegmentOf(|c.cp|, t);
    var p := c.cp[s.idx0];
    var q := c.cp[s.idx1];
    assert Interpolate(c, t, Linear, b) == XY(Lerp3(p, q, s.local));
    LerpBetween(p, q, s.local);
  }

  predicate Between(p: real, q: real, v: real) {
    p <= v <= q || q <= v <= p
  }

  /** A linear interpolation with parameter in [0, 1] lies between its ends. */
  lemma LerpBetween(a: Vec3, b: Vec3, u: real)
    requires 0.0 <= u <= 1.0
    ensures var r := Lerp3(a, b, u);
      Between(a.x, b.x, r.x) && Between(a.y, b.y, r.y)
  {
    ScalarLerpBetween(a.x, b.x, u);
    ScalarLerpBetween(a.y, b.y, u);
  }

  lemma ScalarLerpBetween(p: real, q: real, u: real)
    requires 0.0 <= u <= 1.0
    ensures Between(p, q, Lerp(p, q, u))
  {
    var d := q - p;
    assert d - d * u == d * (1.0 - u);
    if d >= 0.0 {
      assert d * u >= 0.0 && d * (1.0 - u) >= 0.0;
      assert p <= Lerp(p, q, u) <= q;
    } else {
      assert d * u <= 0.0 && d * (1.0 - u) <= 0.0;
      assert q <= Lerp(p, q, u) <= p;
    }
  }

  /** The value of a segment depends only on the control points of its
      four-point window. */
  lemma EvalSegmentIsLocal(cp: seq<Vec3>, cq: seq<Vec3>, s: Segment, kind: CurveType, b: Basis)
    requires |cp| == |cq| && 0 <= s.idx0 && s.idx1 == s.idx0 + 1 && s.idx1 < |cp|
    requires forall j :: Window(|cp|, s.idx0).0 <= j <= Window(|cp|, s.idx0).1 ==> cp[j] == cq[j]
    ensures EvalSegment(cp, s, kind, b) == EvalSegment(cq, s, kind, b)
  {
    var w := Window(|cp|, s.idx0);
    assert cp[w.0] == cq[w.0] && cp[w.1] == cq[w.1];
    assert cp[s.idx0] == cq[s.idx0] && cp[s.idx1] == cq[s.idx1];
  }

  /** Clamps x to [0, 1] and scales it to the control-point index range. */
  function MapParam(c: Curve, x: real): (r: real)
    ensures |c.cp| >= 1 ==> 0.0 <= r <= (|c.cp| - 1) as real
    ensures x <= 0.0 ==> r == 0.0
    ensures x >= 1.0 ==> r == (|c.cp| - 1) as real
  {
    var u := if x < 0.0 then 0.0 else if x >= 1.0 then 1.0 else x;
    var m := |c.cp| as real - 1.0;
    if m >= 0.0 then ScaleUnit(u, m); u * m else u * m
  }

  lemma ScaleUnit(u: real, m: real)
    requires 0.0 <= u <= 1.0 && 0.0 <= m
    ensures 0.0 <= u * m <= m
  {
    assert m - u * m == (1.0 - u) * m;
    assert (1.0 - u) * m >= 0.0;
  }

  /** On [0, 1) the mapped parameter splits into the segment index and the
      local parameter the evaluator uses. */
  lemma MapParamMatchesSegment(c: Curve, x: real)
    requires |c.cp| >= 2 && 0.0 <= x < 1.0
    ensures MapParam(c, x).Floor == SegmentOf(|c.cp|, x).idx0
    ensures MapParam(c, x) == SegmentOf(|c.cp|, x).idx0 as real + SegmentOf(|c.cp|, x).local
  {
    SegmentAgreesOnUnitInterval(|c.cp|, x);
  }
}
