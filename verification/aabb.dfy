/** Axis-aligned bounding boxes and the slab test (src/aabb.h). */
module Aabbs {
  import opened Options
  import opened Vectors
  import opened Rays
  import opened Intervals

  /** One interval per axis. The default constructor leaves all three empty. */
  datatype Aabb = Aabb(x: Interval, y: Interval, z: Interval) {
    /** `axis(n)`: 1 is y, 2 is z, every other index x. */
    function Axis(n: int): (r: Interval)
      ensures n == 1 ==> r == y
      ensures n == 2 ==> r == z
      ensures n != 1 && n != 2 ==> r == x
    {
      if n == 1 then y else if n == 2 then z else x
    }

    predicate ContainsPoint(p: Vec3)
    {
      x.Contains(p.x) && y.Contains(p.y) && z.Contains(p.z)
    }

    /** Strictly inside on every axis. */
    predicate SurroundsPoint(p: Vec3)
    {
      x.Surrounds(p.x) && y.Surrounds(p.y) && z.Surrounds(p.z)
    }
  }

  /** `aabb()`: three default (empty) intervals. */
  function Default(): Aabb { Aabb(Empty(), Empty(), Empty()) }

  /** `interval(fmin(a, b), fmax(a, b))`. */
  function Span(a: real, b: real): Interval
  {
    Interval(Fin(if a <= b then a else b), Fin(if a <= b then b else a))
  }

  /** The two-point constructor: the box with `a` and `b` as opposite corners. */
  function FromPoints(a: Vec3, b: Vec3): (r: Aabb)
    ensures r.ContainsPoint(a) && r.ContainsPoint(b)
    ensures forall i :: 0 <= i < 3 ==> Le(r.Axis(i).min, r.Axis(i).max)
  {
    Aabb(Span(a.x, b.x), Span(a.y, b.y), Span(a.z, b.z))
  }

  /** The two-box constructor: the per-axis union. */
  function Union(b0: Aabb, b1: Aabb): (r: Aabb)
    ensures forall p :: b0.ContainsPoint(p) || b1.ContainsPoint(p) ==> r.ContainsPoint(p)
  {
    Aabb(Hull(b0.x, b1.x), Hull(b0.y, b1.y), Hull(b0.z, b1.z))
  }

  const PadDelta: real := 0.001

  /** `size() >= delta`; false when the size is NaN. */
  predicate AtLeast(size: Option<Ext>, delta: real)
  {
    size.Some? && Le(Fin(delta), size.value)
  }

  /** One axis of `pad()`: kept when at least `PadDelta` thick, else expanded by it. */
  function PadAxis(i: Interval): Interval
  {
    if AtLeast(i.Size(), PadDelta) then i else i.Expand(PadDelta)
  }

  function Pad(b: Aabb): Aabb
  {
    Aabb(PadAxis(b.x), PadAxis(b.y), PadAxis(b.z))
  }

  /** `bbox + offset`. */
  function Translate(b: Aabb, offset: Vec3): Aabb
  {
    Aabb(Shift(b.x, offset.x), Shift(b.y, offset.y), Shift(b.z, offset.z))
  }

  /** `offset + bbox`: the same box as `bbox + offset`. */
  function TranslateLeft(offset: Vec3, b: Aabb): (r: Aabb)
    ensures r == Translate(b, offset)
  {
    Translate(b, offset)
  }

  // ---------------------------------------------------------------------------------------
  // The slab test

  predicate NonZeroDirection(r: Ray)
  {
    r.dir.x != 0.0 && r.dir.y != 0.0 && r.dir.z != 0.0
  }

  /** The two crossing parameters of slab `i` before the swap: `(bound - orig) * inv_d`. */
  function Crossing(bound: Ext, r: Ray, i: int): Ext
    requires 0 <= i < 3 && NonZeroDirection(r)
  {
    Times(Plus(bound, -r.orig.At(i)), 1.0 / r.dir.At(i))
  }

  /** `t0` after the swap: where the ray enters slab `i`. */
  function SlabEntry(b: Aabb, r: Ray, i: int): Ext
    requires 0 <= i < 3 && NonZeroDirection(r)
  {
    if 1.0 / r.dir.At(i) < 0.0 then Crossing(b.Axis(i).max, r, i) else Crossing(b.Axis(i).min, r, i)
  }

  /** `t1` after the swap: where the ray leaves slab `i`. */
  function SlabExit(b: Aabb, r: Ray, i: int): Ext
    requires 0 <= i < 3 && NonZeroDirection(r)
  {
    if 1.0 / r.dir.At(i) < 0.0 then Crossing(b.Axis(i).min, r, i) else Crossing(b.Axis(i).max, r, i)
  }

  /** The largest of `lo` and the entries of slabs `i`..2. */
  function EntryFrom(b: Aabb, r: Ray, lo: Ext, i: int): Ext
    requires 0 <= i <= 3 && NonZeroDirection(r)
    decreases 3 - i
  {
    if i == 3 then lo else EntryFrom(b, r, Max(lo, SlabEntry(b, r, i)), i + 1)
  }

  /** The smallest of `hi` and the exits of slabs `i`..2. */
  function ExitFrom(b: Aabb, r: Ray, hi: Ext, i: int): Ext
    requires 0 <= i <= 3 && NonZeroDirection(r)
    decreases 3 - i
  {
    if i == 3 then hi else ExitFrom(b, r, Min(hi, SlabExit(b, r, i)), i + 1)
  }

  /** The slab criterion: the latest entry (or `ray_t.min`) comes strictly before the
      earliest exit (or `ray_t.max`). */
  predicate SlabsOverlap(b: Aabb, r: Ray, rayT: Interval)
    requires NonZeroDirection(r)
  {
    Lt(EntryFrom(b, r, rayT.min, 0), ExitFrom(b, r, rayT.max, 0))
  }

  lemma {:induction false} EntryFromGrows(b: Aabb, r: Ray, lo: Ext, i: int)
    requires 0 <= i <= 3 && NonZeroDirection(r)
    ensures Le(lo, EntryFrom(b, r, lo, i))
    decreases 3 - i
  {
    if i < 3 {
      var lo' := Max(lo, SlabEntry(b, r, i));
      MaxMinBounds(lo, SlabEntry(b, r, i), lo);
      EntryFromGrows(b, r, lo', i + 1);
      LeTransitive(lo, lo', EntryFrom(b, r, lo', i + 1));
    }
  }

  lemma {:induction false} ExitFromShrinks(b: Aabb, r: Ray, hi: Ext, i: int)
    requires 0 <= i <= 3 && NonZeroDirection(r)
    ensures Le(ExitFrom(b, r, hi, i), hi)
    decreases 3 - i
  {
    if i < 3 {
      var hi' := Min(hi, SlabExit(b, r, i));
      MaxMinBounds(hi, SlabExit(b, r, i), hi);
      ExitFromShrinks(b, r, hi', i + 1);
      LeTransitive(ExitFrom(b, r, hi', i + 1), hi', hi);
    }
  }

  /** `hit`: the loop over the three axes, tightening a copy of `ray_t` and returning early
      once it is empty. */
  method Hit(b: Aabb, r: Ray, rayT: Interval) returns (hit: bool)
    requires NonZeroDirection(r)
    ensures hit <==> SlabsOverlap(b, r, rayT)
  {
    var t := rayT;
    for i := 0 to 3
      invariant EntryFrom(b, r, t.min, i) == EntryFrom(b, r, rayT.min, 0)
      invariant ExitFrom(b, r, t.max, i) == ExitFrom(b, r, rayT.max, 0)
      invariant i > 0 ==> Lt(t.min, t.max)
    {
      var invD := 1.0 / r.dir.At(i);
      var orig := r.orig.At(i);
      var t0 := Times(Plus(b.Axis(i).min, -orig), invD);
      var t1 := Times(Plus(b.Axis(i).max, -orig), invD);
      if invD < 0.0 {
        t0, t1 := t1, t0;
      }
      ghost var before := t;
      if Lt(t.min, t0) {
        t := t.(min := t0);
      }
      if Lt(t1, t.max) {
        t := t.(max := t1);
      }
      assert t.min == Max(before.min, SlabEntry(b, r, i)) && t.max == Min(before.max, SlabExit(b, r, i));
      if Le(t.max, t.min) {
        EntryFromGrows(b, r, t.min, i + 1);
        ExitFromShrinks(b, r, t.max, i + 1);
        LeTransitive(ExitFrom(b, r, t.max, i + 1), t.max, t.min);
        LeTransitive(ExitFrom(b, r, t.max, i + 1), t.min, EntryFrom(b, r, t.min, i + 1));
        return false;
      }
    }
    return true;
  }

  // ---------------------------------------------------------------------------------------
  // Properties of the constructors, pad and translation

  /** The two-point constructor does not depend on the order of its arguments. */
  lemma FromPointsSymmetric(a: Vec3, b: Vec3)
    ensures FromPoints(a, b) == FromPoints(b, a)
  {
  }

  /** The two-point box is the smallest box around both points. */
  lemma FromPointsSmallest(a: Vec3, b: Vec3, box: Aabb, p: Vec3)
    requires box.ContainsPoint(a) && box.ContainsPoint(b)
    ensures FromPoints(a, b).ContainsPoint(p) ==> box.ContainsPoint(p)
  {
  }

  /** Containment, axis by axis through `axis(i)`. */
  lemma ContainsPointByAxis(box: Aabb, p: Vec3)
    ensures box.ContainsPoint(p) <==> forall i :: 0 <= i < 3 ==> box.Axis(i).Contains(p.At(i))
    ensures box.SurroundsPoint(p) <==> forall i :: 0 <= i < 3 ==> box.Axis(i).Surrounds(p.At(i))
  {
    assert p.At(0) == p.x && p.At(1) == p.y && p.At(2) == p.z;
    assert box.Axis(0) == box.x && box.Axis(1) == box.y && box.Axis(2) == box.z;
  }

  /** The default box is the identity of the two-box constructor. */
  lemma UnionWithDefault(b: Aabb)
    ensures Union(b, Default()) == b && Union(Default(), b) == b
  {
    HullWithEmpty(b.x);
    HullWithEmpty(b.y);
    HullWithEmpty(b.z);
  }

  /** Padding one axis: it keeps what it contained, a thick axis is kept, and a non-empty
      finite axis ends up at least `PadDelta` thick. */
  lemma PadAxisProperties(i: Interval)
    ensures forall x :: i.Contains(x) ==> PadAxis(i).Contains(x)
    ensures AtLeast(i.Size(), PadDelta) ==> PadAxis(i) == i
    ensures i.min.Fin? && i.max.Fin? && Le(i.min, i.max) ==> AtLeast(PadAxis(i).Size(), PadDelta)
  {
    if i.min.Fin? && i.max.Fin? && !AtLeast(i.Size(), PadDelta) {
      ExpandSizeAndMidpoint(i, PadDelta);
    }
  }

  lemma PadProperties(b: Aabb)
    ensures forall p :: b.ContainsPoint(p) ==> Pad(b).ContainsPoint(p)
    ensures forall i :: 0 <= i < 3 && AtLeast(b.Axis(i).Size(), PadDelta) ==> Pad(b).Axis(i) == b.Axis(i)
    ensures forall i :: 0 <= i < 3 && b.Axis(i).min.Fin? && b.Axis(i).max.Fin? && Le(b.Axis(i).min, b.Axis(i).max)
              ==> AtLeast(Pad(b).Axis(i).Size(), PadDelta)
  {
    PadAxisProperties(b.x);
    PadAxisProperties(b.y);
    PadAxisProperties(b.z);
  }

  /** Padding the default box leaves it empty. */
  lemma PadDefault()
    ensures Pad(Default()) == Default()
  {
  }

  /** Translation moves containment with the offset and keeps every axis size. */
  lemma TranslateProperties(b: Aabb, offset: Vec3, p: Vec3)
    ensures b.ContainsPoint(p) <==> Translate(b, offset).ContainsPoint(Add(p, offset))
    ensures forall i :: 0 <= i < 3 ==> Translate(b, offset).Axis(i).Size() == b.Axis(i).Size()
    ensures forall i :: 0 <= i < 3 ==> Translate(b, offset).Axis(i) == Shift(b.Axis(i), offset.At(i))
  {
    ShiftProperties(b.x, offset.x, p.x);
    ShiftProperties(b.y, offset.y, p.y);
    ShiftProperties(b.z, offset.z, p.z);
  }

  // ---------------------------------------------------------------------------------------
  // What the slab test means

  lemma InverseFacts(d: real)
    requires d != 0.0
    ensures (1.0 / d) * d == 1.0
    ensures 1.0 / d < 0.0 <==> d < 0.0
  {
    if d < 0.0 {
      ProductPositive(1.0 / d, d, (1.0 / d) * d);
    } else {
      ProductPositive(1.0 / d, d, (1.0 / d) * d);
    }
  }

  /** Multiplying a comparison by `d` keeps it for d > 0 and turns it round for d < 0. */
  lemma CompareScaled(q: real, t: real, d: real, a: real)
    requires q * d == a
    ensures d > 0.0 ==> (q < t <==> a < t * d) && (t < q <==> t * d < a)
    ensures d < 0.0 ==> (q < t <==> t * d < a) && (t < q <==> a < t * d)
  {
    assert (t - q) * d == t * d - a;
    assert (q - t) * d == a - t * d;
    if q < t {
      if d > 0.0 {
        ProductPositive(t - q, d, (t - q) * d);
      } else if d < 0.0 {
        ProductPositive(q - t, d, (q - t) * d);
      }
    } else if t < q {
      if d > 0.0 {
        ProductPositive(q - t, d, (q - t) * d);
      } else if d < 0.0 {
        ProductPositive(t - q, d, (t - q) * d);
      }
    }
  }

  /** Where a crossing parameter lies relative to `t` says on which side of the plane
      `bound` the point at `t` lies. */
  lemma CrossingVersusPoint(bound: Ext, o: real, d: real, t: real)
    requires d != 0.0
    ensures d > 0.0 ==> (Lt(Times(Plus(bound, -o), 1.0 / d), Fin(t)) <==> Lt(bound, Fin(o + t * d)))
    ensures d > 0.0 ==> (Lt(Fin(t), Times(Plus(bound, -o), 1.0 / d)) <==> Lt(Fin(o + t * d), bound))
    ensures d < 0.0 ==> (Lt(Times(Plus(bound, -o), 1.0 / d), Fin(t)) <==> Lt(Fin(o + t * d), bound))
    ensures d < 0.0 ==> (Lt(Fin(t), Times(Plus(bound, -o), 1.0 / d)) <==> Lt(bound, Fin(o + t * d)))
  {
    var inv := 1.0 / d;
    InverseFacts(d);
    if bound.Fin? {
      var a := bound.v - o;
      var q := a * inv;
      assert Times(Plus(bound, -o), inv) == Fin(q);
      assert q * d == a by {
        assert q * d == a * (inv * d);
      }
      CompareScaled(q, t, d, a);
    }
  }

  /** The ray point at `t` is strictly inside slab `i` exactly when `t` lies strictly between
      the slab's entry and exit. */
  lemma SlabAxis(b: Aabb, r: Ray, i: int, t: real)
    requires 0 <= i < 3 && NonZeroDirection(r)
    ensures Lt(SlabEntry(b, r, i), Fin(t)) && Lt(Fin(t), SlabExit(b, r, i)) <==> b.Axis(i).Surrounds(r.At(t).At(i))
  {
    var d := r.dir.At(i);
    var o := r.orig.At(i);
    InverseFacts(d);
    assert r.At(t).At(i) == o + t * d;
    CrossingVersusPoint(b.Axis(i).min, o, d, t);
    CrossingVersusPoint(b.Axis(i).max, o, d, t);
  }

  lemma {:induction false} EntryFromBelow(b: Aabb, r: Ray, lo: Ext, i: int, t: real)
    requires 0 <= i <= 3 && NonZeroDirection(r)
    ensures Lt(EntryFrom(b, r, lo, i), Fin(t)) <==> Lt(lo, Fin(t)) && forall j :: i <= j < 3 ==> Lt(SlabEntry(b, r, j), Fin(t))
    decreases 3 - i
  {
    if i < 3 {
      MaxMinBounds(lo, SlabEntry(b, r, i), Fin(t));
      EntryFromBelow(b, r, Max(lo, SlabEntry(b, r, i)), i + 1, t);
    }
  }

  lemma {:induction false} ExitFromAbove(b: Aabb, r: Ray, hi: Ext, i: int, t: real)
    requires 0 <= i <= 3 && NonZeroDirection(r)
    ensures Lt(Fin(t), ExitFrom(b, r, hi, i)) <==> Lt(Fin(t), hi) && forall j :: i <= j < 3 ==> Lt(Fin(t), SlabExit(b, r, j))
    decreases 3 - i
  {
    if i < 3 {
      MaxMinBounds(hi, SlabExit(b, r, i), Fin(t));
      ExitFromAbove(b, r, Min(hi, SlabExit(b, r, i)), i + 1, t);
    }
  }

  /** The slab test is exact: it reports a hit precisely when some parameter strictly inside
      `ray_t` puts the ray strictly inside the box. */
  lemma SlabsOverlapMeaning(b: Aabb, r: Ray, rayT: Interval)
    requires NonZeroDirection(r)
    ensures SlabsOverlap(b, r, rayT) <==> exists t :: rayT.Surrounds(t) && b.SurroundsPoint(r.At(t))
  {
    var lo := EntryFrom(b, r, rayT.min, 0);
    var hi := ExitFrom(b, r, rayT.max, 0);
    if SlabsOverlap(b, r, rayT) {
      var t := Between(lo, hi);
      EntryFromBelow(b, r, rayT.min, 0, t);
      ExitFromAbove(b, r, rayT.max, 0, t);
      SlabAxis(b, r, 0, t);
      SlabAxis(b, r, 1, t);
      SlabAxis(b, r, 2, t);
      ContainsPointByAxis(b, r.At(t));
      assert rayT.Surrounds(t) && b.SurroundsPoint(r.At(t));
    }
    if exists t :: rayT.Surrounds(t) && b.SurroundsPoint(r.At(t)) {
      var t :| rayT.Surrounds(t) && b.SurroundsPoint(r.At(t));
      ContainsPointByAxis(b, r.At(t));
      SlabAxis(b, r, 0, t);
      SlabAxis(b, r, 1, t);
      SlabAxis(b, r, 2, t);
      EntryFromBelow(b, r, rayT.min, 0, t);
      ExitFromAbove(b, r, rayT.max, 0, t);
      LtBounds(lo, Fin(t), hi);
    }
  }

  /** Narrowing `ray_t` never turns a miss into a hit. */
  lemma NarrowingKeepsMisses(b: Aabb, r: Ray, wide: Interval, narrow: Interval)
    requires NonZeroDirection(r)
    requires Le(wide.min, narrow.min) && Le(narrow.max, wide.max)
    ensures SlabsOverlap(b, r, narrow) ==> SlabsOverlap(b, r, wide)
  {
    SlabsOverlapMeaning(b, r, narrow);
    SlabsOverlapMeaning(b, r, wide);
    if SlabsOverlap(b, r, narrow) {
      var t :| narrow.Surrounds(t) && b.SurroundsPoint(r.At(t));
      LtBounds(wide.min, narrow.min, Fin(t));
      LtBounds(Fin(t), narrow.max, wide.max);
      assert wide.Surrounds(t);
    }
  }

  /** No ray hits the default (empty) box. */
  lemma DefaultNeverHit(r: Ray, rayT: Interval)
    requires NonZeroDirection(r)
    ensures !SlabsOverlap(Default(), r, rayT)
  {
    SlabsOverlapMeaning(Default(), r, rayT);
  }

  // ---------------------------------------------------------------------------------------
  // The commented-out reference version of the slab test

  /** `(bound - orig) / dir` of the reference version. */
  function Quotient(bound: Ext, r: Ray, i: int): Ext
    requires 0 <= i < 3 && NonZeroDirection(r)
  {
    var d := r.dir.At(i);
    match Plus(bound, -r.orig.At(i))
    case Fin(x) => Fin(x / d)
    case PosInf => if d > 0.0 then PosInf else NegInf
    case NegInf => if d > 0.0 then NegInf else PosInf
  }

  /** The reference loop from axis `i` on: `fmin`/`fmax` of the two crossings instead of the
      swap, then the same tightening and early return. */
  function ReferenceFrom(b: Aabb, r: Ray, t: Interval, i: int): bool
    requires 0 <= i <= 3 && NonZeroDirection(r)
    decreases 3 - i
  {
    if i == 3 then true
    else
      var c0 := Quotient(b.Axis(i).min, r, i);
      var c1 := Quotient(b.Axis(i).max, r, i);
      var t' := Interval(Max(Min(c0, c1), t.min), Min(Max(c0, c1), t.max));
      if Le(t'.max, t'.min) then false else ReferenceFrom(b, r, t', i + 1)
  }

  predicate ReferenceHit(b: Aabb, r: Ray, rayT: Interval)
    requires NonZeroDirection(r)
  {
    ReferenceFrom(b, r, rayT, 0)
  }

  /** Every axis has `min <= max`; true of every box built from points. */
  predicate Ordered(b: Aabb)
  {
    forall i :: 0 <= i < 3 ==> Le(b.Axis(i).min, b.Axis(i).max)
  }

  lemma TimesMonotone(a: Ext, c: Ext, k: real)
    requires k != 0.0 && Le(a, c)
    ensures k > 0.0 ==> Le(Times(a, k), Times(c, k))
    ensures k < 0.0 ==> Le(Times(c, k), Times(a, k))
  {
    if a.Fin? && c.Fin? {
      var x, y := a.v, c.v;
      assert (y - x) * k == y * k - x * k;
      if k > 0.0 {
        ProductNonNegative(y - x, k, (y - x) * k);
      } else {
        assert (x - y) * k == x * k - y * k;
        ProductNonNegative(x - y, k, (x - y) * k);
      }
    }
  }

  /** Dividing by the direction gives the same crossing as multiplying by its inverse, and on
      an ordered axis `fmin`/`fmax` of the crossings are the swapped `t0`/`t1`. */
  lemma ReferenceSlab(b: Aabb, r: Ray, i: int)
    requires 0 <= i < 3 && NonZeroDirection(r)
    requires Le(b.Axis(i).min, b.Axis(i).max)
    ensures Min(Quotient(b.Axis(i).min, r, i), Quotient(b.Axis(i).max, r, i)) == SlabEntry(b, r, i)
    ensures Max(Quotient(b.Axis(i).min, r, i), Quotient(b.Axis(i).max, r, i)) == SlabExit(b, r, i)
  {
    var d := r.dir.At(i);
    var o := r.orig.At(i);
    InverseFacts(d);
    QuotientIsCrossing(b.Axis(i).min, r, i);
    QuotientIsCrossing(b.Axis(i).max, r, i);
    TimesMonotone(Plus(b.Axis(i).min, -o), Plus(b.Axis(i).max, -o), 1.0 / d);
  }

  lemma QuotientIsCrossing(bound: Ext, r: Ray, i: int)
    requires 0 <= i < 3 && NonZeroDirection(r)
    ensures Quotient(bound, r, i) == Crossing(bound, r, i)
  {
    var d := r.dir.At(i);
    InverseFacts(d);
    if Plus(bound, -r.orig.At(i)).Fin? {
      var x := Plus(bound, -r.orig.At(i)).v;
      assert x / d == x * (1.0 / d);
    }
  }

  lemma MaxMinCommute(a: Ext, b: Ext)
    ensures Max(a, b) == Max(b, a) && Min(a, b) == Min(b, a)
  {
  }

  lemma {:induction false} ReferenceFromAgrees(b: Aabb, r: Ray, t: Interval, i: int)
    requires 0 <= i < 3 && NonZeroDirection(r) && Ordered(b)
    ensures ReferenceFrom(b, r, t, i) == Lt(EntryFrom(b, r, t.min, i), ExitFrom(b, r, t.max, i))
    decreases 3 - i
  {
    ReferenceSlab(b, r, i);
    var e, x := SlabEntry(b, r, i), SlabExit(b, r, i);
    MaxMinCommute(e, t.min);
    MaxMinCommute(x, t.max);
    var t' := Interval(Max(t.min, e), Min(t.max, x));
    assert EntryFrom(b, r, t.min, i) == EntryFrom(b, r, t'.min, i + 1);
    assert ExitFrom(b, r, t.max, i) == ExitFrom(b, r, t'.max, i + 1);
    if Le(t'.max, t'.min) {
      EntryFromGrows(b, r, t'.min, i + 1);
      ExitFromShrinks(b, r, t'.max, i + 1);
      LeTransitive(ExitFrom(b, r, t'.max, i + 1), t'.max, t'.min);
      LeTransitive(ExitFrom(b, r, t'.max, i + 1), t'.min, EntryFrom(b, r, t'.min, i + 1));
    } else if i < 2 {
      ReferenceFromAgrees(b, r, t', i + 1);
    }
  }

  /** On ordered boxes the optimised test and the reference test agree. */
  lemma ReferenceAgreesOnOrderedBoxes(b: Aabb, r: Ray, rayT: Interval)
    requires NonZeroDirection(r) && Ordered(b)
    ensures ReferenceHit(b, r, rayT) == SlabsOverlap(b, r, rayT)
  {
    ReferenceFromAgrees(b, r, rayT, 0);
  }

  /** On the default (empty) box they differ: the reference version reports a hit that the
      optimised version, correctly, does not. */
  lemma ReferenceDiffersOnDefaultBox()
    ensures var r := Ray(Vec3(1.0, 1.0, 1.0), Zero());
            NonZeroDirection(r) && ReferenceHit(Default(), r, Universe()) && !SlabsOverlap(Default(), r, Universe())
  {
    var r := Ray(Vec3(1.0, 1.0, 1.0), Zero());
    DefaultNeverHit(r, Universe());
    assert Quotient(PosInf, r, 0) == PosInf && Quotient(NegInf, r, 0) == NegInf;
    assert Quotient(PosInf, r, 1) == PosInf && Quotient(NegInf, r, 1) == NegInf;
    assert Quotient(PosInf, r, 2) == PosInf && Quotient(NegInf, r, 2) == NegInf;
  }

  /** Boxes built from two points are ordered, and union and padding keep them so. */
  lemma OrderedPreserved(a: Vec3, c: Vec3, b0: Aabb, b1: Aabb)
    ensures Ordered(FromPoints(a, c))
    ensures Ordered(b0) ==> Ordered(Union(b0, b1)) && Ordered(Pad(b0))
  {
    if Ordered(b0) {
      assert Le(b0.Axis(0).min, b0.Axis(0).max) && Le(b0.Axis(1).min, b0.Axis(1).max) && Le(b0.Axis(2).min, b0.Axis(2).max);
      forall i | 0 <= i < 3 ensures Le(Pad(b0).Axis(i).min, Pad(b0).Axis(i).max) {
        var ax := b0.Axis(i);
        if !AtLeast(ax.Size(), PadDelta) {
          assert Le(ax.Expand(PadDelta).min, ax.min);
          assert Le(ax.max, ax.Expand(PadDelta).max);
          LeTransitive(ax.Expand(PadDelta).min, ax.min, ax.max);
          LeTransitive(ax.Expand(PadDelta).min, ax.max, ax.Expand(PadDelta).max);
        }
      }
    }
  }
}
