/** `box(a, b, mat)` (src/quad.h): a list of six quads built by six `add` calls. */
module Boxes {
  import opened Vectors
  import opened Intervals
  import opened Aabbs
  import opened Materials
  import opened Quads
  import opened Scene

  function Fmin(x: real, y: real): real { if x <= y then x else y }

  function Fmax(x: real, y: real): real { if x <= y then y else x }

  /** The corners `min` and `max`, componentwise. */
  function MinCorner(a: Vec3, b: Vec3): Vec3 { Vec3(Fmin(a.x, b.x), Fmin(a.y, b.y), Fmin(a.z, b.z)) }

  function MaxCorner(a: Vec3, b: Vec3): Vec3 { Vec3(Fmax(a.x, b.x), Fmax(a.y, b.y), Fmax(a.z, b.z)) }

  /** The corner `Q` and the edges `u`, `v` passed to one quad constructor. */
  datatype Frame = Frame(q: Vec3, u: Vec3, v: Vec3)

  /** The six faces in the order they are added: front, right, back, left, top, bottom.
      The last one starts at `max[0]` and extends by `+dx`, as written. */
  function FaceFrames(a: Vec3, b: Vec3): (fs: seq<Frame>)
    ensures |fs| == 6
  {
    FramesBetween(MinCorner(a, b), MaxCorner(a, b))
  }

  /** The faces for the corners `min` and `max`. */
  function FramesBetween(lo: Vec3, hi: Vec3): (fs: seq<Frame>)
    ensures |fs| == 6
  {
    var dx := Vec3(hi.x - lo.x, 0.0, 0.0);
    var dy := Vec3(0.0, hi.y - lo.y, 0.0);
    var dz := Vec3(0.0, 0.0, hi.z - lo.z);
    [Frame(Vec3(lo.x, lo.y, hi.z), dx, dy),
     Frame(Vec3(hi.x, lo.y, hi.z), Neg(dz), dy),
     Frame(Vec3(hi.x, lo.y, lo.z), Neg(dx), dy),
     Frame(Vec3(lo.x, lo.y, lo.z), dz, dy),
     Frame(Vec3(lo.x, hi.y, hi.z), dx, Neg(dz)),
     Frame(Vec3(hi.x, lo.y, lo.z), dx, dz)]
  }

  /** The two corners differ on every axis, so that no face is degenerate. */
  predicate Solid(a: Vec3, b: Vec3) { a.x != b.x && a.y != b.y && a.z != b.z }

  /** The edges of a face span a plane, as the quad constructor needs. */
  predicate Spans(f: Frame) { Cross(f.u, f.v) != Zero() }

  /** Every face of a solid box has edges that span a plane. */
  lemma FramesSpan(a: Vec3, b: Vec3)
    requires Solid(a, b)
    ensures forall i :: 0 <= i < 6 ==> Spans(FaceFrames(a, b)[i])
  {
    var lo, hi := MinCorner(a, b), MaxCorner(a, b);
    var ex, ey, ez := hi.x - lo.x, hi.y - lo.y, hi.z - lo.z;
    ProductPositive(ex, ey, ex * ey);
    ProductPositive(ey, ez, ey * ez);
    ProductPositive(ex, ez, ex * ez);
  }

  /** The quad constructor applied to one face. */
  function FaceQuad(f: Frame, mat: Material, num: Numerics): (quad: Quad)
    requires num.Valid() && Spans(f)
    ensures quad.mat == mat && Frame(quad.q, quad.u, quad.v) == f
  {
    MakeQuad(f.q, f.u, f.v, mat, num)
  }

  /** One quad per face, in order. */
  function QuadsOf(fs: seq<Frame>, mat: Material, num: Numerics): (quads: seq<Quad>)
    requires num.Valid() && forall i :: 0 <= i < |fs| ==> Spans(fs[i])
    ensures |quads| == |fs|
    ensures forall i :: 0 <= i < |fs| ==> quads[i].mat == mat
    ensures forall i :: 0 <= i < |fs| ==> Frame(quads[i].q, quads[i].u, quads[i].v) == fs[i]
  {
    if |fs| == 0 then []
    else QuadsOf(fs[..|fs| - 1], mat, num) + [FaceQuad(fs[|fs| - 1], mat, num)]
  }

  /** The six quads of the box, all sharing `mat`. */
  function Faces(a: Vec3, b: Vec3, mat: Material, num: Numerics): (fs: seq<Quad>)
    requires num.Valid() && Solid(a, b)
    ensures |fs| == 6 && forall i :: 0 <= i < 6 ==> fs[i].mat == mat
  {
    FramesSpan(a, b);
    QuadsOf(FaceFrames(a, b), mat, num)
  }

  /** Each quad as a member of a list. */
  function ObjectsOf(quads: seq<Quad>): (objs: seq<Hittable>)
    ensures |objs| == |quads|
    ensures forall i :: 0 <= i < |quads| ==> objs[i] == QuadObj(quads[i])
  {
    seq(|quads|, i requires 0 <= i < |quads| => QuadObj(quads[i]))
  }

  /** Adding `o` to a list whose box is the running box of `objs`. */
  lemma AccumulateAppend(start: Aabb, objs: seq<Hittable>, o: Hittable)
    ensures Accumulate(start, objs + [o]) == Union(Accumulate(start, objs), BoxOf(o))
  {
    assert (objs + [o])[..|objs|] == objs;
  }

  lemma PrefixStep(s: seq<Hittable>, k: int)
    requires 0 <= k < |s|
    ensures s[..k] + [s[k]] == s[..k + 1]
  {
  }

  /** `box(a, b, mat)`: a new list holding the six faces; its box is the running union of
      the faces' boxes. */
  method MakeBox(a: Vec3, b: Vec3, mat: Material, num: Numerics) returns (box: HittableList)
    requires num.Valid() && Solid(a, b)
    ensures fresh(box)
    ensures box.objects == ObjectsOf(Faces(a, b, mat, num))
    ensures box.bbox == Accumulate(Default(), box.objects)
    ensures box.Covering()
  {
    box := ListOfSix(ObjectsOf(Faces(a, b, mat, num)));
  }

  /** A new list to which the six faces are added one `add` at a time. */
  method ListOfSix(objs: seq<Hittable>) returns (box: HittableList)
    requires |objs| == 6
    ensures fresh(box)
    ensures box.objects == objs && box.bbox == Accumulate(Default(), objs) && box.Covering()
  {
    box := new HittableList();
    assert box.objects == objs[..0] && box.bbox == Accumulate(Default(), objs[..0]);
    AddFace(box, objs, 0);
    AddFace(box, objs, 1);
    AddFace(box, objs, 2);
    AddFace(box, objs, 3);
    AddFace(box, objs, 4);
    AddFace(box, objs, 5);
    assert objs[..6] == objs;
  }

  /** One `add` of the next face: the list and its box grow by that face. */
  method AddFace(box: HittableList, objs: seq<Hittable>, k: int)
    requires 0 <= k < |objs| && box.Covering()
    requires box.objects == objs[..k] && box.bbox == Accumulate(Default(), objs[..k])
    modifies box
    ensures box.Covering()
    ensures box.objects == objs[..k + 1] && box.bbox == Accumulate(Default(), objs[..k + 1])
  {
    box.Add(objs[k]);
    AccumulateAppend(Default(), objs[..k], objs[k]);
    PrefixStep(objs, k);
  }

  // ---------------------------------------------------------------------------------------
  // Properties of the faces

  /** `box(a, b, mat)` and `box(b, a, mat)` build the same faces. */
  lemma FacesSymmetric(a: Vec3, b: Vec3, mat: Material, num: Numerics)
    requires num.Valid() && Solid(a, b)
    ensures Solid(b, a) && Faces(a, b, mat, num) == Faces(b, a, mat, num)
  {
    assert MinCorner(a, b) == MinCorner(b, a) && MaxCorner(a, b) == MaxCorner(b, a);
    assert FaceFrames(a, b) == FaceFrames(b, a);
  }

  /** `lo <= lo + s e <= lo + e` for `0 <= s <= 1` and `e >= 0`. */
  lemma Partway(lo: real, e: real, s: real, se: real)
    requires 0.0 <= e && 0.0 <= s <= 1.0 && se == s * e
    ensures lo <= lo + se <= lo + e
  {
    ProductNonNegative(s, e, se);
    ProductNonNegative(1.0 - s, e, (1.0 - s) * e);
  }

  /** `hi - e <= hi - s e <= hi` for `0 <= s <= 1` and `e >= 0`. */
  lemma PartwayDown(hi: real, e: real, s: real, se: real)
    requires 0.0 <= e && 0.0 <= s <= 1.0 && se == s * e
    ensures hi - e <= hi - se <= hi
  {
    ProductNonNegative(s, e, se);
    ProductNonNegative(1.0 - s, e, (1.0 - s) * e);
  }

  /** The point at `(s, t)` of a face frame. */
  function FramePoint(f: Frame, s: real, t: real): Vec3
  {
    Add(f.q, Add(Scale(s, f.u), Scale(t, f.v)))
  }

  /** The box between the corners `min` and `max`. */
  function Between(lo: Vec3, hi: Vec3): Aabb
  {
    Aabb(Interval(Fin(lo.x), Fin(hi.x)), Interval(Fin(lo.y), Fin(hi.y)), Interval(Fin(lo.z), Fin(hi.z)))
  }

  lemma FromPointsBetween(a: Vec3, b: Vec3)
    ensures FromPoints(a, b) == Between(MinCorner(a, b), MaxCorner(a, b))
  {
  }

  lemma InBetween(lo: Vec3, hi: Vec3, p: Vec3)
    requires lo.x <= p.x <= hi.x && lo.y <= p.y <= hi.y && lo.z <= p.z <= hi.z
    ensures Between(lo, hi).ContainsPoint(p)
  {
  }

  lemma FrontInBox(lo: Vec3, hi: Vec3, s: real, t: real)
    requires lo.x < hi.x && lo.y < hi.y && lo.z < hi.z && Interior(s, t)
    ensures Between(lo, hi).ContainsPoint(FramePoint(FramesBetween(lo, hi)[0], s, t))
  {
    var ex, ey, ez := hi.x - lo.x, hi.y - lo.y, hi.z - lo.z;
    Partway(lo.x, ex, s, s * ex);
    Partway(lo.y, ey, t, t * ey);
    assert FramePoint(FramesBetween(lo, hi)[0], s, t) == Vec3(lo.x + s * ex, lo.y + t * ey, hi.z);
    InBetween(lo, hi, Vec3(lo.x + s * ex, lo.y + t * ey, hi.z));
  }

  lemma RightInBox(lo: Vec3, hi: Vec3, s: real, t: real)
    requires lo.x < hi.x && lo.y < hi.y && lo.z < hi.z && Interior(s, t)
    ensures Between(lo, hi).ContainsPoint(FramePoint(FramesBetween(lo, hi)[1], s, t))
  {
    var ex, ey, ez := hi.x - lo.x, hi.y - lo.y, hi.z - lo.z;
    Partway(lo.y, ey, t, t * ey);
    PartwayDown(hi.z, ez, s, s * ez);
    assert FramePoint(FramesBetween(lo, hi)[1], s, t) == Vec3(hi.x, lo.y + t * ey, hi.z - s * ez);
    InBetween(lo, hi, Vec3(hi.x, lo.y + t * ey, hi.z - s * ez));
  }

  lemma BackInBox(lo: Vec3, hi: Vec3, s: real, t: real)
    requires lo.x < hi.x && lo.y < hi.y && lo.z < hi.z && Interior(s, t)
    ensures Between(lo, hi).ContainsPoint(FramePoint(FramesBetween(lo, hi)[2], s, t))
  {
    var ex, ey, ez := hi.x - lo.x, hi.y - lo.y, hi.z - lo.z;
    PartwayDown(hi.x, ex, s, s * ex);
    Partway(lo.y, ey, t, t * ey);
    assert FramePoint(FramesBetween(lo, hi)[2], s, t) == Vec3(hi.x - s * ex, lo.y + t * ey, lo.z);
    InBetween(lo, hi, Vec3(hi.x - s * ex, lo.y + t * ey, lo.z));
  }

  lemma LeftInBox(lo: Vec3, hi: Vec3, s: real, t: real)
    requires lo.x < hi.x && lo.y < hi.y && lo.z < hi.z && Interior(s, t)
    ensures Between(lo, hi).ContainsPoint(FramePoint(FramesBetween(lo, hi)[3], s, t))
  {
    var ex, ey, ez := hi.x - lo.x, hi.y - lo.y, hi.z - lo.z;
    Partway(lo.y, ey, t, t * ey);
    Partway(lo.z, ez, s, s * ez);
    assert FramePoint(FramesBetween(lo, hi)[3], s, t) == Vec3(lo.x, lo.y + t * ey, lo.z + s * ez);
    InBetween(lo, hi, Vec3(lo.x, lo.y + t * ey, lo.z + s * ez));
  }

  lemma TopInBox(lo: Vec3, hi: Vec3, s: real, t: real)
    requires lo.x < hi.x && lo.y < hi.y && lo.z < hi.z && Interior(s, t)
    ensures Between(lo, hi).ContainsPoint(FramePoint(FramesBetween(lo, hi)[4], s, t))
  {
    var ex, ey, ez := hi.x - lo.x, hi.y - lo.y, hi.z - lo.z;
    Partway(lo.x, ex, s, s * ex);
    PartwayDown(hi.z, ez, t, t * ez);
    assert FramePoint(FramesBetween(lo, hi)[4], s, t) == Vec3(lo.x + s * ex, hi.y, hi.z - t * ez);
    InBetween(lo, hi, Vec3(lo.x + s * ex, hi.y, hi.z - t * ez));
  }

  lemma FrameInBox(lo: Vec3, hi: Vec3, i: int, s: real, t: real)
    requires lo.x < hi.x && lo.y < hi.y && lo.z < hi.z && 0 <= i < 5 && Interior(s, t)
    ensures Between(lo, hi).ContainsPoint(FramePoint(FramesBetween(lo, hi)[i], s, t))
  {
    if i == 0 {
      FrontInBox(lo, hi, s, t);
    } else if i == 1 {
      RightInBox(lo, hi, s, t);
    } else if i == 2 {
      BackInBox(lo, hi, s, t);
    } else if i == 3 {
      LeftInBox(lo, hi, s, t);
    } else {
      TopInBox(lo, hi, s, t);
    }
  }

  /** The points of the front, right, back, left and top faces lie in the box spanned by
      the two corners. */
  lemma FaceInBox(a: Vec3, b: Vec3, mat: Material, num: Numerics, i: int, s: real, t: real)
    requires num.Valid() && Solid(a, b) && 0 <= i < 5 && Interior(s, t)
    ensures FromPoints(a, b).ContainsPoint(PlanePoint(Faces(a, b, mat, num)[i], s, t))
  {
    var quad := Faces(a, b, mat, num)[i];
    assert Frame(quad.q, quad.u, quad.v) == FaceFrames(a, b)[i];
    assert PlanePoint(quad, s, t) == FramePoint(FaceFrames(a, b)[i], s, t);
    FromPointsBetween(a, b);
    FrameInBox(MinCorner(a, b), MaxCorner(a, b), i, s, t);
  }

  /** The "bottom" face starts at `max[0]` and extends by `+dx`: every one of its points off
      its first edge lies outside the box. */
  lemma BottomFaceOutside(a: Vec3, b: Vec3, mat: Material, num: Numerics, s: real, t: real)
    requires num.Valid() && Solid(a, b) && Interior(s, t) && s > 0.0
    ensures !FromPoints(a, b).ContainsPoint(PlanePoint(Faces(a, b, mat, num)[5], s, t))
  {
    var quad := Faces(a, b, mat, num)[5];
    assert Frame(quad.q, quad.u, quad.v) == FaceFrames(a, b)[5];
    assert PlanePoint(quad, s, t) == FramePoint(FaceFrames(a, b)[5], s, t);
    FromPointsBetween(a, b);
    BottomOutside(MinCorner(a, b), MaxCorner(a, b), s, t);
  }

  lemma BottomOutside(lo: Vec3, hi: Vec3, s: real, t: real)
    requires lo.x < hi.x && s > 0.0
    ensures !Between(lo, hi).ContainsPoint(FramePoint(FramesBetween(lo, hi)[5], s, t))
  {
    var ex := hi.x - lo.x;
    ProductPositive(s, ex, s * ex);
    assert FramePoint(FramesBetween(lo, hi)[5], s, t).x == hi.x + s * ex;
  }
}
