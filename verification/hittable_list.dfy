/** The scene aggregate (src/hittable_list.h): a list of objects, the running union of their
    boxes, and the closest-hit scan with a shrinking upper bound. */
module Scene {
  import opened Options
  import opened Vectors
  import opened Rays
  import opened Aabbs
  import opened Hits
  import opened Spheres
  import opened Quads

  /** Everything that implements `hittable`. A list stored inside another list is the value
      its objects and box had when it was added. */
  datatype Hittable =
    | SphereObj(s: Sphere)
    | QuadObj(q: Quad)
    | ListObj(objects: seq<Hittable>, bbox: Aabb)

  /** `bounding_box()` of any object. */
  function BoxOf(o: Hittable): Aabb
  {
    match o
    case SphereObj(s) => s.bbox
    case QuadObj(q) => q.bbox
    case ListObj(_, b) => b
  }

  /** Every point of `inner` lies in `outer`. */
  ghost predicate Covers(outer: Aabb, inner: Aabb)
  {
    forall p :: inner.ContainsPoint(p) ==> outer.ContainsPoint(p)
  }

  // ---------------------------------------------------------------------------------------
  // The hit functions

  /** `hit` of any object as a value: None where the source returns false. */
  function ObjHit(o: Hittable, r: Ray, tMin: real, tMax: real, num: Numerics): Option<Hit>
    decreases o
  {
    match o
    case SphereObj(s) => SphereHit(s, r, tMin, tMax, num)
    case QuadObj(q) => QuadHit(q, r, tMin, tMax)
    case ListObj(objs, _) => ScanHit(objs, r, tMin, tMax, num)
  }

  /** `hittable_list::hit` over `objs`: the members are tried in order, each against
      `[t_min, closest_t]`, and a member that succeeds replaces the record and lowers
      `closest_t` to its parameter. */
  function ScanHit(objs: seq<Hittable>, r: Ray, tMin: real, tMax: real, num: Numerics): Option<Hit>
    decreases objs, 0
  {
    if |objs| == 0 then None
    else
      var prev := ScanHit(objs[..|objs| - 1], r, tMin, tMax, num);
      var cur := ObjHit(objs[|objs| - 1], r, tMin, ClosestSoFar(objs[..|objs| - 1], r, tMin, tMax, num), num);
      if cur.Some? then cur else prev
  }

  /** `closest_so_far` after the members `objs`: the nearest hit so far, else `ray_t.max`. */
  function ClosestSoFar(objs: seq<Hittable>, r: Ray, tMin: real, tMax: real, num: Numerics): real
    decreases objs, 1
  {
    var prev := ScanHit(objs, r, tMin, tMax, num);
    if prev.Some? then prev.value.t else tMax
  }

  // ---------------------------------------------------------------------------------------
  // Range and stability: the two facts about every object that the closest-hit scan needs

  /** A hit lies in the range asked for. */
  lemma {:induction false} ObjRange(o: Hittable, r: Ray, tMin: real, tMax: real, num: Numerics)
    ensures ObjHit(o, r, tMin, tMax, num).Some? ==> tMin <= ObjHit(o, r, tMin, tMax, num).value.t <= tMax
    decreases o
  {
    match o
    case SphereObj(s) =>
      SphereHitSelection(s, r, tMin, tMax, num);
    case QuadObj(q) =>
      if QuadHit(q, r, tMin, tMax).Some? {
        QuadHitProperties(q, r, tMin, tMax, QuadHit(q, r, tMin, tMax).value);
      }
    case ListObj(objs, _) =>
      ScanRange(objs, r, tMin, tMax, num);
  }

  lemma {:induction false} ScanRange(objs: seq<Hittable>, r: Ray, tMin: real, tMax: real, num: Numerics)
    ensures ScanHit(objs, r, tMin, tMax, num).Some? ==> tMin <= ScanHit(objs, r, tMin, tMax, num).value.t <= tMax
    decreases objs
  {
    if |objs| > 0 {
      var prefix, last := objs[..|objs| - 1], objs[|objs| - 1];
      var prev := ScanHit(prefix, r, tMin, tMax, num);
      var closest := if prev.Some? then prev.value.t else tMax;
      ScanRange(prefix, r, tMin, tMax, num);
      ObjRange(last, r, tMin, closest, num);
    }
  }

  /** Moving the upper end of the range anywhere above the parameter of a hit, up or down,
      keeps the same hit. */
  lemma {:induction false} ObjStable(o: Hittable, r: Ray, tMin: real, tMax: real, c: real, num: Numerics)
    requires num.Valid()
    requires ObjHit(o, r, tMin, tMax, num).Some? && ObjHit(o, r, tMin, tMax, num).value.t < c
    ensures ObjHit(o, r, tMin, c, num) == ObjHit(o, r, tMin, tMax, num)
    decreases o, 2
  {
    match o
    case SphereObj(s) =>
      SphereHitNarrowing(s, r, tMin, tMax, c, num);
    case QuadObj(q) =>
      QuadHitRangeChange(q, r, tMin, tMax, c);
    case ListObj(objs, _) =>
      ScanStable(objs, r, tMin, tMax, c, num);
  }

  lemma {:induction false} ScanStable(objs: seq<Hittable>, r: Ray, tMin: real, tMax: real, c: real, num: Numerics)
    requires num.Valid()
    requires ScanHit(objs, r, tMin, tMax, num).Some? && ScanHit(objs, r, tMin, tMax, num).value.t < c
    ensures ScanHit(objs, r, tMin, c, num) == ScanHit(objs, r, tMin, tMax, num)
    decreases objs, 2
  {
    if c != tMax {
      if ScanHit(objs[..|objs| - 1], r, tMin, tMax, num).Some? {
        StableAfterEarlierHit(objs, r, tMin, tMax, c, num);
      } else {
        StableAfterEarlierMiss(objs, r, tMin, tMax, c, num);
      }
    }
  }

  /** ScanStable when some earlier member is hit on the original range. */
  lemma {:induction false} StableAfterEarlierHit(objs: seq<Hittable>, r: Ray, tMin: real, tMax: real, c: real, num: Numerics)
    requires num.Valid() && |objs| > 0
    requires ScanHit(objs, r, tMin, tMax, num).Some? && ScanHit(objs, r, tMin, tMax, num).value.t < c
    requires ScanHit(objs[..|objs| - 1], r, tMin, tMax, num).Some?
    ensures ScanHit(objs, r, tMin, c, num) == ScanHit(objs, r, tMin, tMax, num)
    decreases objs, 1
  {
    var prefix, last := objs[..|objs| - 1], objs[|objs| - 1];
    var p := ScanHit(prefix, r, tMin, tMax, num).value;
    var prevC := ScanHit(prefix, r, tMin, c, num);
    var curH := ObjHit(last, r, tMin, p.t, num);
    if curH.Some? {
      ObjRange(last, r, tMin, p.t, num);
      if p.t < c {
        ScanStable(prefix, r, tMin, tMax, c, num);
      } else if prevC.Some? {
        ScanRange(prefix, r, tMin, c, num);
        if prevC.value.t < tMax {
          ScanStable(prefix, r, tMin, c, tMax, num);
        } else {
          ScanRange(prefix, r, tMin, tMax, num);
        }
      } else {
        ObjStable(last, r, tMin, p.t, c, num);
      }
    } else {
      ScanStable(prefix, r, tMin, tMax, c, num);
    }
  }

  /** ScanStable when no earlier member is hit on the original range. */
  lemma {:induction false} StableAfterEarlierMiss(objs: seq<Hittable>, r: Ray, tMin: real, tMax: real, c: real, num: Numerics)
    requires num.Valid() && |objs| > 0
    requires ScanHit(objs, r, tMin, tMax, num).Some? && ScanHit(objs, r, tMin, tMax, num).value.t < c
    requires ScanHit(objs[..|objs| - 1], r, tMin, tMax, num).None?
    ensures ScanHit(objs, r, tMin, c, num) == ScanHit(objs, r, tMin, tMax, num)
    decreases objs, 1
  {
    var prefix, last := objs[..|objs| - 1], objs[|objs| - 1];
    var g := ObjHit(last, r, tMin, tMax, num).value;
    var prevC := ScanHit(prefix, r, tMin, c, num);
    if prevC.Some? {
      var p := prevC.value;
      ScanRange(prefix, r, tMin, c, num);
      if p.t < tMax {
        ScanStable(prefix, r, tMin, c, tMax, num);
        assert false;
      }
      ObjRange(last, r, tMin, tMax, num);
      if g.t < p.t {
        ObjStable(last, r, tMin, tMax, p.t, num);
      }
    } else {
      ObjStable(last, r, tMin, tMax, c, num);
    }
  }

  // ---------------------------------------------------------------------------------------
  // The closest hit

  /** A hit of the scan is the whole-range hit of one of the members. */
  lemma {:induction false} ScanProvenance(objs: seq<Hittable>, r: Ray, tMin: real, tMax: real, num: Numerics)
    requires num.Valid()
    ensures ScanHit(objs, r, tMin, tMax, num).Some? ==>
              exists i :: 0 <= i < |objs| && ObjHit(objs[i], r, tMin, tMax, num) == ScanHit(objs, r, tMin, tMax, num)
  {
    if |objs| > 0 {
      var n := |objs| - 1;
      var prefix := objs[..n];
      var cur := ObjHit(objs[n], r, tMin, ClosestSoFar(prefix, r, tMin, tMax, num), num);
      if cur.Some? {
        LastMemberWins(prefix, objs[n], r, tMin, tMax, num);
        assert ObjHit(objs[n], r, tMin, tMax, num) == ScanHit(objs, r, tMin, tMax, num);
      } else if ScanHit(prefix, r, tMin, tMax, num).Some? {
        ScanProvenance(prefix, r, tMin, tMax, num);
        var i :| 0 <= i < n && ObjHit(prefix[i], r, tMin, tMax, num) == ScanHit(prefix, r, tMin, tMax, num);
        assert objs[i] == prefix[i];
      }
    }
  }

  /** A hit of the last member within the range the earlier members left is also its hit
      on the whole range. */
  lemma LastMemberWins(prefix: seq<Hittable>, last: Hittable, r: Ray, tMin: real, tMax: real, num: Numerics)
    requires num.Valid()
    requires ObjHit(last, r, tMin, ClosestSoFar(prefix, r, tMin, tMax, num), num).Some?
    ensures ObjHit(last, r, tMin, tMax, num) == ObjHit(last, r, tMin, ClosestSoFar(prefix, r, tMin, tMax, num), num)
  {
    var closest := ClosestSoFar(prefix, r, tMin, tMax, num);
    ScanRange(prefix, r, tMin, tMax, num);
    ObjRange(last, r, tMin, closest, num);
    if ObjHit(last, r, tMin, closest, num).value.t < tMax {
      ObjStable(last, r, tMin, closest, tMax, num);
    }
  }

  /** A member hit on the whole range makes the scan hit, no farther away. */
  lemma {:induction false} ScanNearest(objs: seq<Hittable>, r: Ray, tMin: real, tMax: real, num: Numerics, i: int)
    requires num.Valid() && 0 <= i < |objs| && ObjHit(objs[i], r, tMin, tMax, num).Some?
    ensures ScanHit(objs, r, tMin, tMax, num).Some?
    ensures ScanHit(objs, r, tMin, tMax, num).value.t <= ObjHit(objs[i], r, tMin, tMax, num).value.t
  {
    var n := |objs| - 1;
    var prefix, last := objs[..n], objs[n];
    var prev := ScanHit(prefix, r, tMin, tMax, num);
    var closest := if prev.Some? then prev.value.t else tMax;
    ObjRange(last, r, tMin, closest, num);
    if i < n {
      assert objs[i] == prefix[i];
      ScanNearest(prefix, r, tMin, tMax, num, i);
    } else if prev.Some? {
      var g := ObjHit(last, r, tMin, tMax, num).value;
      ObjRange(last, r, tMin, tMax, num);
      if g.t < closest {
        ObjStable(last, r, tMin, tMax, closest, num);
      }
    }
  }

  /** The scan finds a hit exactly when some member is hit on the whole range; the hit it
      returns is one member's own hit on the whole range, and no member is hit nearer. */
  lemma ScanClosest(objs: seq<Hittable>, r: Ray, tMin: real, tMax: real, num: Numerics)
    requires num.Valid()
    ensures ScanHit(objs, r, tMin, tMax, num).Some? <==>
              exists i :: 0 <= i < |objs| && ObjHit(objs[i], r, tMin, tMax, num).Some?
    ensures ScanHit(objs, r, tMin, tMax, num).Some? ==>
              exists i :: 0 <= i < |objs| && ObjHit(objs[i], r, tMin, tMax, num) == ScanHit(objs, r, tMin, tMax, num)
    ensures forall i :: 0 <= i < |objs| && ObjHit(objs[i], r, tMin, tMax, num).Some? ==>
              ScanHit(objs, r, tMin, tMax, num).Some? &&
              ScanHit(objs, r, tMin, tMax, num).value.t <= ObjHit(objs[i], r, tMin, tMax, num).value.t
  {
    ScanProvenance(objs, r, tMin, tMax, num);
    forall i | 0 <= i < |objs| && ObjHit(objs[i], r, tMin, tMax, num).Some?
      ensures ScanHit(objs, r, tMin, tMax, num).Some? &&
              ScanHit(objs, r, tMin, tMax, num).value.t <= ObjHit(objs[i], r, tMin, tMax, num).value.t
    {
      ScanNearest(objs, r, tMin, tMax, num, i);
    }
  }

  // ---------------------------------------------------------------------------------------
  // The imperative hit

  /** `object->hit(...)`, dispatched on the kind of object. */
  method HitObject(o: Hittable, r: Ray, tMin: real, tMax: real, rec: HitRecord, num: Numerics) returns (hit: bool)
    modifies rec
    ensures hit == ObjHit(o, r, tMin, tMax, num).Some?
    ensures hit ==> rec.Holds(ObjHit(o, r, tMin, tMax, num).value)
    ensures !hit ==> unchanged(rec)
    decreases o
  {
    match o
    case SphereObj(s) =>
      hit := HitSphere(s, r, tMin, tMax, rec, num);
    case QuadObj(q) =>
      hit := HitQuad(q, r, tMin, tMax, rec);
    case ListObj(objs, _) =>
      hit := HitMembers(objs, r, tMin, tMax, rec, num);
  }

  /** The loop of `hittable_list::hit`: a fresh `temp_rec`, `closest_t` starting at `t_max`,
      and `rec` overwritten by `temp_rec` after every member that succeeds. */
  method HitMembers(objs: seq<Hittable>, r: Ray, tMin: real, tMax: real, rec: HitRecord, num: Numerics)
    returns (hitAnything: bool)
    modifies rec
    ensures hitAnything == ScanHit(objs, r, tMin, tMax, num).Some?
    ensures hitAnything ==> rec.Holds(ScanHit(objs, r, tMin, tMax, num).value)
    ensures !hitAnything ==> unchanged(rec)
    decreases objs
  {
    var tempRec := new HitRecord();
    var closest := tMax;
    hitAnything := false;
    var i := 0;
    while i < |objs|
      invariant 0 <= i <= |objs|
      invariant fresh(tempRec)
      invariant hitAnything == ScanHit(objs[..i], r, tMin, tMax, num).Some?
      invariant hitAnything ==> rec.Holds(ScanHit(objs[..i], r, tMin, tMax, num).value)
      invariant hitAnything ==> closest == ScanHit(objs[..i], r, tMin, tMax, num).value.t
      invariant !hitAnything ==> closest == tMax && unchanged(rec)
    {
      assert objs[..i + 1][..i] == objs[..i];
      assert objs[..i + 1][i] == objs[i];
      var ok := HitObject(objs[i], r, tMin, closest, tempRec, num);
      if ok {
        hitAnything := true;
        closest := tempRec.t;
        rec.CopyFrom(tempRec);
      }
      i := i + 1;
    }
    assert objs[..i] == objs;
  }

  // ---------------------------------------------------------------------------------------
  // The list object

  /** `hittable_list`: the member list and the running box. */
  class HittableList {
    var objects: seq<Hittable>
    var bbox: Aabb

    /** Every member's box lies in the running box. */
    ghost predicate Covering()
      reads this
    {
      forall i :: 0 <= i < |objects| ==> Covers(bbox, BoxOf(objects[i]))
    }

    /** The default constructor: no members and the default (empty) box. */
    constructor ()
      ensures objects == [] && bbox == Default() && Covering()
    {
      objects := [];
      bbox := Default();
    }

    /** The one-object constructor, which calls `add`. */
    constructor Single(o: Hittable)
      ensures objects == [o] && bbox == Union(Default(), BoxOf(o)) && Covering()
    {
      objects := [];
      bbox := Default();
      new;
      Add(o);
    }

    /** `add`: appends the object and widens the box by the object's box. */
    method Add(o: Hittable)
      modifies this
      ensures objects == old(objects) + [o]
      ensures bbox == Union(old(bbox), BoxOf(o))
      ensures old(Covering()) ==> Covering()
    {
      objects := objects + [o];
      bbox := Union(bbox, BoxOf(o));
      forall i | 0 <= i < |old(objects)| && old(Covering())
        ensures Covers(bbox, BoxOf(objects[i]))
      {
        assert objects[i] == old(objects)[i];
        assert Covers(old(bbox), BoxOf(old(objects)[i]));
      }
    }

    /** `clear`: empties the list; the box is left as it was. */
    method Clear()
      modifies this
      ensures objects == [] && bbox == old(bbox) && Covering()
    {
      objects := [];
    }

    /** `bounding_box()`. */
    function BoundingBox(): Aabb
      reads this
    {
      bbox
    }

    /** This list as a member of another list. */
    function AsObject(): (o: Hittable)
      reads this
      ensures BoxOf(o) == BoundingBox()
    {
      ListObj(objects, bbox)
    }

    /** `hit`: the closest-hit scan over the members; the members are not changed. */
    method Hit(r: Ray, tMin: real, tMax: real, rec: HitRecord, num: Numerics) returns (hit: bool)
      modifies rec
      ensures hit == ScanHit(objects, r, tMin, tMax, num).Some?
      ensures hit ==> rec.Holds(ScanHit(objects, r, tMin, tMax, num).value)
      ensures !hit ==> unchanged(rec)
      ensures hit == ObjHit(AsObject(), r, tMin, tMax, num).Some?
    {
      hit := HitMembers(objects, r, tMin, tMax, rec, num);
    }
  }

  // ---------------------------------------------------------------------------------------
  // The running box as a value

  /** The box after adding `objs` one by one to a list whose box was `start`. */
  function Accumulate(start: Aabb, objs: seq<Hittable>): Aabb
  {
    if |objs| == 0 then start else Union(Accumulate(start, objs[..|objs| - 1]), BoxOf(objs[|objs| - 1]))
  }

  /** The running box covers the starting box and the box of every object added. */
  lemma {:induction false} AccumulateCovers(start: Aabb, objs: seq<Hittable>)
    ensures Covers(Accumulate(start, objs), start)
    ensures forall i :: 0 <= i < |objs| ==> Covers(Accumulate(start, objs), BoxOf(objs[i]))
  {
    if |objs| > 0 {
      var n := |objs| - 1;
      var prefix := objs[..n];
      AccumulateCovers(start, prefix);
      forall i | 0 <= i < n
        ensures Covers(Accumulate(start, objs), BoxOf(objs[i]))
      {
        assert objs[i] == prefix[i];
      }
    }
  }
}
