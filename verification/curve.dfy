/** The control-point model of a planar curve: an ordered sequence of
    homogeneous control points (x, y, weight) and a curve-type tag, with the
    index-checked edits and the nearest-control-point query.

    Numbers are mathematical reals; the single-precision floats of the
    code are not modelled. */
module Curves {

  /** The closed set of evaluation schemes a curve can be tagged with. */
  datatype CurveType = Linear | Hermite | BSpline

  datatype Vec2 = Vec2(x: real, y: real)

  /** A homogeneous control point: position (x, y) and weight z. */
  datatype Vec3 = Vec3(x: real, y: real, z: real)

  /** A curve: control points in parameter order (index 0 is the start) and its type. */
  datatype Curve = Curve(cp: seq<Vec3>, kind: CurveType)

  /** What an index-checked edit leaves behind: the curve afterwards and the
      success flag it returns. */
  datatype Edited = Edited(curve: Curve, ok: bool)

  /** Weight given to a point when the caller names none. */
  const DefaultWeight: real := 1.0

  function XY(v: Vec3): Vec2 {
    Vec2(v.x, v.y)
  }

  /** A fresh curve: no points, the given type (HERMITE unless stated). */
  function NewCurve(kind: CurveType := Hermite): (r: Curve)
    ensures r.kind == kind && |r.cp| == 0
  {
    Curve([], kind)
  }

  lemma DefaultCurveIsEmptyHermite()
    ensures NewCurve().kind == Hermite
    ensures |NewCurve().cp| == 0
  {
  }

  function SetType(c: Curve, kind: CurveType): (r: Curve)
    ensures r.kind == kind
    ensures r.cp == c.cp
  {
    c.(kind := kind)
  }

  function GetType(c: Curve): CurveType {
    c.kind
  }

  /** Setting the type is observed by the getter, and re-setting the current
      type changes nothing. */
  lemma SetTypeGetType(c: Curve, kind: CurveType)
    ensures GetType(SetType(c, kind)) == kind
    ensures SetType(c, GetType(c)) == c
  {
  }

  /** Appends the triple (p.x, p.y, weight) after the last point. */
  function AddPoint(c: Curve, p: Vec2, weight: real := DefaultWeight): (r: Curve)
    ensures |r.cp| == |c.cp| + 1
    ensures r.cp[..|c.cp|] == c.cp
    ensures r.cp[|c.cp|] == Vec3(p.x, p.y, weight)
    ensures r.kind == c.kind
  {
    c.(cp := c.cp + [Vec3(p.x, p.y, weight)])
  }

  lemma AddPointDefaultWeight(c: Curve, p: Vec2)
    ensures AddPoint(c, p).cp[|c.cp|].z == 1.0
  {
  }

  /** Deletes point `idx`, keeping the others in order; out of range it fails
      and leaves the curve as it was. */
  function RemovePoint(c: Curve, idx: int): (r: Edited)
    ensures r.ok <==> 0 <= idx < |c.cp|
    ensures !r.ok ==> r.curve == c
    ensures r.ok ==> |r.curve.cp| == |c.cp| - 1 && r.curve.kind == c.kind
    ensures r.ok ==> forall j :: 0 <= j < idx ==> r.curve.cp[j] == c.cp[j]
    ensures r.ok ==> forall j :: idx <= j < |r.curve.cp| ==> r.curve.cp[j] == c.cp[j + 1]
  {
    if idx < 0 || idx >= |c.cp| then Edited(c, false)
    else Edited(c.(cp := c.cp[..idx] + c.cp[idx + 1..]), true)
  }

  /** A successful removal takes away exactly one occurrence of the removed point. */
  lemma RemovePointMultiset(c: Curve, idx: int)
    requires 0 <= idx < |c.cp|
    ensures multiset(RemovePoint(c, idx).curve.cp) + multiset{c.cp[idx]} == multiset(c.cp)
  {
    assert c.cp == c.cp[..idx] + [c.cp[idx]] + c.cp[idx + 1..];
  }

  /** Removing the last point undoes an append. */
  lemma RemoveUndoesAdd(c: Curve, p: Vec2, weight: real)
    ensures RemovePoint(AddPoint(c, p, weight), |c.cp|) == Edited(c, true)
  {
    var a := AddPoint(c, p, weight).cp;
    assert a[..|c.cp|] + a[|c.cp| + 1..] == c.cp;
  }

  /** Replaces point `idx` by (p.x, p.y, weight); out of range it fails with no change. */
  function SetPoint(c: Curve, idx: int, p: Vec2, weight: real := DefaultWeight): (r: Edited)
    ensures r.ok <==> 0 <= idx < |c.cp|
    ensures !r.ok ==> r.curve == c
    ensures r.ok ==> |r.curve.cp| == |c.cp| && r.curve.kind == c.kind
    ensures r.ok ==> r.curve.cp[idx] == Vec3(p.x, p.y, weight)
    ensures r.ok ==> forall j :: 0 <= j < |c.cp| && j != idx ==> r.curve.cp[j] == c.cp[j]
  {
    if idx < 0 || idx >= |c.cp| then Edited(c, false)
    else Edited(c.(cp := c.cp[idx := Vec3(p.x, p.y, weight)]), true)
  }

  /** Without an explicit weight, a moved point's weight is reset to 1. */
  lemma SetPointResetsWeight(c: Curve, idx: int, p: Vec2)
    requires 0 <= idx < |c.cp|
    ensures GetWeight(SetPoint(c, idx, p).curve, idx) == 1.0
    ensures GetPoint(SetPoint(c, idx, p).curve, idx) == p
  {
  }

  /** Changes the weight of point `idx` and nothing else; out of range it fails
      with no change. */
  function SetWeight(c: Curve, idx: int, weight: real): (r: Edited)
    ensures r.ok <==> 0 <= idx < |c.cp|
    ensures !r.ok ==> r.curve == c
    ensures r.ok ==> |r.curve.cp| == |c.cp| && r.curve.kind == c.kind
    ensures r.ok ==> XY(r.curve.cp[idx]) == XY(c.cp[idx]) && r.curve.cp[idx].z == weight
    ensures r.ok ==> forall j :: 0 <= j < |c.cp| && j != idx ==> r.curve.cp[j] == c.cp[j]
  {
    if idx < 0 || idx >= |c.cp| then Edited(c, false)
    else Edited(c.(cp := c.cp[idx := c.cp[idx].(z := weight)]), true)
  }

  /** A later weight overrides an earlier one, and writing back the current
      weight leaves the curve as it was. */
  lemma SetWeightOverrides(c: Curve, idx: int, w1: real, w2: real)
    requires 0 <= idx < |c.cp|
    ensures SetWeight(SetWeight(c, idx, w1).curve, idx, w2) == SetWeight(c, idx, w2)
    ensures SetWeight(c, idx, GetWeight(c, idx)) == Edited(c, true)
  {
  }

  function GetPointCount(c: Curve): int {
    |c.cp|
  }

  /** Element access; the code does not check the index, so callers must. */
  function GetHomoPoint(c: Curve, idx: int): Vec3
    requires 0 <= idx < |c.cp|
  {
    c.cp[idx]
  }

  function GetPoint(c: Curve, idx: int): Vec2
    requires 0 <= idx < |c.cp|
  {
    Vec2(c.cp[idx].x, c.cp[idx].y)
  }

  function GetWeight(c: Curve, idx: int): real
    requires 0 <= idx < |c.cp|
  {
    c.cp[idx].z
  }

  /** The position and weight accessors together give back the stored triple. */
  lemma AccessorsAgree(c: Curve, idx: int)
    requires 0 <= idx < |c.cp|
    ensures Vec3(GetPoint(c, idx).x, GetPoint(c, idx).y, GetWeight(c, idx)) == GetHomoPoint(c, idx)
  {
  }

  /** The point count follows the edits: an append adds one, a successful
      removal takes one away, and every other edit keeps it. */
  lemma PointCountTracksEdits(c: Curve, p: Vec2, w: real, idx: int, kind: CurveType)
    ensures GetPointCount(AddPoint(c, p, w)) == GetPointCount(c) + 1
    ensures GetPointCount(RemovePoint(c, idx).curve)
      == if 0 <= idx < GetPointCount(c) then GetPointCount(c) - 1 else GetPointCount(c)
    ensures GetPointCount(SetPoint(c, idx, p, w).curve) == GetPointCount(c)
    ensures GetPointCount(SetWeight(c, idx, w).curve) == GetPointCount(c)
    ensures GetPointCount(SetType(c, kind)) == GetPointCount(c)
  {
  }

  /** Squared Euclidean distance between the position of `v` and `p`. */
  function DistSq(v: Vec3, p: Vec2): real {
    (v.x - p.x) * (v.x - p.x) + (v.y - p.y) * (v.y - p.y)
  }

  /** `i` indexes a control point at minimal distance to `p`, and no earlier
      point is equally close. */
  ghost predicate IsNearest(cp: seq<Vec3>, p: Vec2, i: int) {
    && 0 <= i < |cp|
    && (forall j :: 0 <= j < |cp| ==> DistSq(cp[i], p) <= DistSq(cp[j], p))
    && (forall j :: 0 <= j < i ==> DistSq(cp[i], p) < DistSq(cp[j], p))
  }

  /** The nearest index is determined uniquely. */
  lemma NearestIsUnique(cp: seq<Vec3>, p: Vec2, i: int, k: int)
    requires IsNearest(cp, p, i) && IsNearest(cp, p, k)
    ensures i == k
  {
    assert DistSq(cp[i], p) <= DistSq(cp[k], p) && DistSq(cp[k], p) <= DistSq(cp[i], p);
  }

  /** Index of the control point closest to `p`, lowest index on ties, or -1
      for an empty curve. */
  method NearestPoint(c: Curve, p: Vec2) returns (res: int)
    ensures res == -1 <==> |c.cp| == 0
    ensures res != -1 ==> IsNearest(c.cp, p, res)
  {
    res := -1;
    var best := 0.0;
    var i := 0;
    while i < |c.cp|
      invariant 0 <= i <= |c.cp|
      invariant res == -1 <==> i == 0
      invariant res != -1 ==> 0 <= res < i && best == DistSq(c.cp[res], p)
      invariant res != -1 ==> forall j :: 0 <= j < i ==> best <= DistSq(c.cp[j], p)
      invariant res != -1 ==> forall j :: 0 <= j < res ==> best < DistSq(c.cp[j], p)
    {
      var d := DistSq(c.cp[i], p);
      if res == -1 || d < best {
        best := d;
        res := i;
      }
      i := i + 1;
    }
  }
}
