/** Spheres: bounding box, root selection and the hit record they write (src/sphere.h). */
module Spheres {
  import opened Options
  import opened Vectors
  import opened Rays
  import opened Intervals
  import opened Aabbs
  import opened Materials
  import opened Hits

  datatype Sphere = Sphere(center: Vec3, radius: real, mat: Material, bbox: Aabb)

  function Abs(x: real): real { if x < 0.0 then -x else x }

  /** The constructor: the box spans `center - rvec` to `center + rvec`, with
      `rvec = (radius, radius, radius)`. */
  function MakeSphere(center: Vec3, radius: real, mat: Material): (s: Sphere)
    ensures s.center == center && s.radius == radius && s.mat == mat
    ensures forall i :: 0 <= i < 3 ==>
              s.bbox.Axis(i) == Interval(Fin(center.At(i) - Abs(radius)), Fin(center.At(i) + Abs(radius)))
  {
    var rvec := Vec3(radius, radius, radius);
    Sphere(center, radius, mat, FromPoints(Add(center, rvec), Sub(center, rvec)))
  }

  /** The coefficients `a`, `half_b`, `c` of the quadratic in the ray parameter. */
  datatype Quadratic = Quadratic(a: real, halfB: real, c: real) {
    function Discriminant(): real { halfB * halfB - a * c }

    /** `a t^2 + 2 half_b t + c`. */
    function At(t: real): real { a * t * t + 2.0 * halfB * t + c }
  }

  function Coefficients(s: Sphere, r: Ray): Quadratic
  {
    var oc := Sub(r.Origin(), s.center);
    Quadratic(Dot(r.Direction(), r.Direction()), Dot(r.Direction(), oc), Dot(oc, oc) - s.radius * s.radius)
  }

  /** A positive discriminant rules out both a zero direction and a zero radius, so the
      divisions of `hit` are defined. */
  lemma PositiveDiscriminant(s: Sphere, r: Ray)
    requires Coefficients(s, r).Discriminant() > 0.0
    ensures Coefficients(s, r).a > 0.0 && s.radius != 0.0
  {
    var q := Coefficients(s, r);
    var oc := Sub(r.Origin(), s.center);
    if r.Direction() == Zero() {
      assert false;
    }
    DotSelfPositive(r.Direction());
    if s.radius == 0.0 {
      CauchySchwarz(r.Direction(), oc);
      assert false;
    }
  }

  /** The two candidate roots, the smaller first. */
  function Roots(s: Sphere, r: Ray, num: Numerics): (real, real)
    requires Coefficients(s, r).Discriminant() > 0.0
  {
    var q := Coefficients(s, r);
    PositiveDiscriminant(s, r);
    var sqrtd := num.sqrt(q.Discriminant());
    ((-q.halfB - sqrtd) / q.a, (-q.halfB + sqrtd) / q.a)
  }

  /** `sphere::hit` as a value: None where the source returns false. */
  function SphereHit(s: Sphere, r: Ray, tMin: real, tMax: real, num: Numerics): Option<Hit>
  {
    var q := Coefficients(s, r);
    if q.Discriminant() <= 0.0 then None
    else
      PositiveDiscriminant(s, r);
      var (root1, root2) := Roots(s, r, num);
      var root := if root1 <= tMin || tMax <= root1 then root2 else root1;
      if root <= tMin || tMax <= root then None
      else
        var p := r.At(root);
        var outward := Div(Sub(p, s.center), s.radius);
        var (front, n) := FaceNormal(r, outward);
        var (u, v) := num.sphereUV(outward);
        Some(Hit(root, p, n, front, s.mat, u, v))
  }

  /** `sphere::hit`: writes the record only on a hit. */
  method HitSphere(s: Sphere, r: Ray, tMin: real, tMax: real, rec: HitRecord, num: Numerics) returns (hit: bool)
    modifies rec
    ensures hit == SphereHit(s, r, tMin, tMax, num).Some?
    ensures hit ==> rec.Holds(SphereHit(s, r, tMin, tMax, num).value)
    ensures !hit ==> unchanged(rec)
  {
    var q := Coefficients(s, r);
    var a, halfB := q.a, q.halfB;
    var discriminant := q.Discriminant();
    if discriminant <= 0.0 {
      return false;
    }
    PositiveDiscriminant(s, r);
    var sqrtd := num.sqrt(discriminant);
    ghost var roots := Roots(s, r, num);
    var root := (-halfB - sqrtd) / a;
    assert root == roots.0;
    if root <= tMin || tMax <= root {
      root := (-halfB + sqrtd) / a;
      assert root == roots.1;
      if root <= tMin || tMax <= root {
        return false;
      }
    }
    ghost var h := SphereHit(s, r, tMin, tMax, num).value;
    assert root == h.t;
    rec.p := r.At(root);
    rec.t := root;
    rec.mat := Some(s.mat);
    var outward := Div(Sub(rec.p, s.center), s.radius);
    rec.SetNormalFace(r, outward);
    var uv := num.sphereUV(outward);
    rec.u, rec.v := uv.0, uv.1;
    return true;
  }

  // ---------------------------------------------------------------------------------------
  // What the root selection means

  /** A point of the sphere's surface. */
  predicate OnSphere(s: Sphere, p: Vec3)
  {
    Dot(Sub(p, s.center), Sub(p, s.center)) == s.radius * s.radius
  }

  lemma ProductZero(x: real, y: real, p: real)
    requires p == x * y && p == 0.0
    ensures x == 0.0 || y == 0.0
  {
    if (x > 0.0 && y > 0.0) || (x < 0.0 && y < 0.0) {
      ProductPositive(x, y, p);
    } else if x > 0.0 && y < 0.0 {
      ProductPositive(x, -y, x * -y);
    } else if x < 0.0 && y > 0.0 {
      ProductPositive(-x, y, -x * y);
    }
  }

  lemma QuotientNonNegative(x: real, a: real, q: real)
    requires a > 0.0 && x >= 0.0 && q == x / a
    ensures q >= 0.0
  {
    assert q * a == x;
    if q < 0.0 {
      ProductPositive(-q, a, -q * a);
    }
  }

  lemma DotAlongLine(u: Vec3, w: Vec3, t: real)
    ensures Dot(Add(u, Scale(t, w)), Add(u, Scale(t, w))) == Dot(u, u) + 2.0 * t * Dot(w, u) + t * t * Dot(w, w)
  {
  }

  /** The quadratic measures how far the ray point is from the sphere's surface. */
  lemma QuadraticAtRayPoint(s: Sphere, r: Ray, t: real)
    ensures Coefficients(s, r).At(t) == Dot(Sub(r.At(t), s.center), Sub(r.At(t), s.center)) - s.radius * s.radius
  {
    var oc := Sub(r.Origin(), s.center);
    assert Sub(r.At(t), s.center) == Add(oc, Scale(t, r.Direction()));
    DotAlongLine(oc, r.Direction(), t);
  }

  /** With `sq` a square root of the discriminant, the quadratic factors over its two roots. */
  lemma Factor(q: Quadratic, sq: real, r1: real, r2: real, t: real)
    requires q.a != 0.0 && sq * sq == q.Discriminant()
    requires r1 == (-q.halfB - sq) / q.a && r2 == (-q.halfB + sq) / q.a
    ensures q.At(t) == q.a * ((t - r1) * (t - r2))
  {
    var a, h, c := q.a, q.halfB, q.c;
    var u1, u2 := a * r1, a * r2;
    assert u1 == -h - sq;
    assert u2 == -h + sq;
    assert u1 * u2 == a * c;
    var x := a * (r1 * r2);
    assert x * a == u1 * u2;
    assert (x - c) * a == 0.0;
    ProductZero(x - c, a, (x - c) * a);
    assert a * ((t - r1) * (t - r2)) == a * t * t - t * (u1 + u2) + x;
  }

  lemma RootsOrdered(h: real, sq: real, a: real, r1: real, r2: real)
    requires a > 0.0 && sq >= 0.0
    requires r1 == (-h - sq) / a && r2 == (-h + sq) / a
    ensures r1 <= r2
  {
    assert r2 - r1 == (2.0 * sq) / a;
    QuotientNonNegative(2.0 * sq, a, (2.0 * sq) / a);
  }

  lemma ZeroOfFactored(a: real, r1: real, r2: real, t: real, v: real)
    requires a != 0.0 && v == a * ((t - r1) * (t - r2))
    ensures v == 0.0 <==> t == r1 || t == r2
  {
    if v == 0.0 {
      ProductZero(a, (t - r1) * (t - r2), v);
      ProductZero(t - r1, t - r2, (t - r1) * (t - r2));
    }
  }

  /** The roots `hit` computes are ordered, and the ray points on the sphere are exactly the
      points at those two parameters. */
  lemma RootsAreTheIntersections(s: Sphere, r: Ray, num: Numerics, t: real)
    requires num.Valid() && Coefficients(s, r).Discriminant() > 0.0
    ensures Roots(s, r, num).0 <= Roots(s, r, num).1
    ensures OnSphere(s, r.At(t)) <==> t == Roots(s, r, num).0 || t == Roots(s, r, num).1
  {
    var q := Coefficients(s, r);
    PositiveDiscriminant(s, r);
    var sq := num.sqrt(q.Discriminant());
    assert 0.0 <= sq && sq * sq == q.Discriminant();
    var roots := Roots(s, r, num);
    RootsOrdered(q.halfB, sq, q.a, roots.0, roots.1);
    QuadraticAtRayPoint(s, r, t);
    ZeroAtRoots(q, sq, roots.0, roots.1, t);
  }

  /** The quadratic vanishes exactly at its two roots. */
  lemma ZeroAtRoots(q: Quadratic, sq: real, r1: real, r2: real, t: real)
    requires q.a != 0.0 && sq * sq == q.Discriminant()
    requires r1 == (-q.halfB - sq) / q.a && r2 == (-q.halfB + sq) / q.a
    ensures q.At(t) == 0.0 <==> t == r1 || t == r2
  {
    Factor(q, sq, r1, r2, t);
    ZeroOfFactored(q.a, r1, r2, t, q.At(t));
  }

  /** A non-positive discriminant is a miss, the grazing ray included. */
  lemma NonPositiveDiscriminantMisses(s: Sphere, r: Ray, tMin: real, tMax: real, num: Numerics)
    requires Coefficients(s, r).Discriminant() <= 0.0
    ensures SphereHit(s, r, tMin, tMax, num) == None
  {
  }

  /** A hit lies strictly inside the range, at the ray point of its parameter, with the
      sphere's material; the smaller root wins whenever it is in range. */
  lemma SphereHitSelection(s: Sphere, r: Ray, tMin: real, tMax: real, num: Numerics)
    ensures SphereHit(s, r, tMin, tMax, num).Some? ==>
              var h := SphereHit(s, r, tMin, tMax, num).value;
              var roots := Roots(s, r, num);
              tMin < h.t < tMax && h.p == r.At(h.t) && h.mat == s.mat &&
              (if tMin < roots.0 < tMax then h.t == roots.0 else h.t == roots.1)
    ensures Coefficients(s, r).Discriminant() > 0.0 ==>
              (SphereHit(s, r, tMin, tMax, num).Some? <==>
                 tMin < Roots(s, r, num).0 < tMax || tMin < Roots(s, r, num).1 < tMax)
  {
  }

  /** Moving the upper end of the range down to any value above a hit's parameter keeps
      the same hit. */
  lemma SphereHitNarrowing(s: Sphere, r: Ray, tMin: real, tMax: real, c: real, num: Numerics)
    requires num.Valid() && SphereHit(s, r, tMin, tMax, num).Some?
    requires SphereHit(s, r, tMin, tMax, num).value.t < c
    ensures SphereHit(s, r, tMin, c, num) == SphereHit(s, r, tMin, tMax, num)
  {
    var roots := Roots(s, r, num);
    RootsAreTheIntersections(s, r, num, roots.0);
    SphereHitSelection(s, r, tMin, tMax, num);
    SphereHitSelection(s, r, tMin, c, num);
  }

  /** Raising the upper end of the range keeps a hit. */
  lemma SphereHitWidening(s: Sphere, r: Ray, tMin: real, b: real, tMax: real, num: Numerics)
    requires num.Valid() && SphereHit(s, r, tMin, b, num).Some? && b <= tMax
    ensures SphereHit(s, r, tMin, tMax, num) == SphereHit(s, r, tMin, b, num)
  {
    var roots := Roots(s, r, num);
    RootsAreTheIntersections(s, r, num, roots.0);
    SphereHitSelection(s, r, tMin, tMax, num);
    SphereHitSelection(s, r, tMin, b, num);
  }

  /** Scaling a vector of length `|radius|` by `1/radius` gives a unit vector. */
  lemma UnitOutward(w: Vec3, radius: real)
    requires radius != 0.0 && Dot(w, w) == radius * radius
    ensures Dot(Div(w, radius), Div(w, radius)) == 1.0
  {
    var k := 1.0 / radius;
    assert k * radius == 1.0;
    assert Dot(Scale(k, w), Scale(k, w)) == k * k * Dot(w, w);
    assert k * k * (radius * radius) == (k * radius) * (k * radius);
  }

  /** The hit is the nearest point of the surface strictly inside the range. */
  lemma SphereHitNearest(s: Sphere, r: Ray, tMin: real, tMax: real, num: Numerics)
    requires num.Valid()
    ensures SphereHit(s, r, tMin, tMax, num).Some? ==>
              OnSphere(s, SphereHit(s, r, tMin, tMax, num).value.p) &&
              forall t :: tMin < t < tMax && OnSphere(s, r.At(t)) ==> SphereHit(s, r, tMin, tMax, num).value.t <= t
    ensures Coefficients(s, r).Discriminant() > 0.0 && (exists t :: tMin < t < tMax && OnSphere(s, r.At(t))) ==>
              SphereHit(s, r, tMin, tMax, num).Some?
  {
    if Coefficients(s, r).Discriminant() > 0.0 {
      var roots := Roots(s, r, num);
      RootsAreTheIntersections(s, r, num, roots.0);
      RootsAreTheIntersections(s, r, num, roots.1);
      forall t | tMin < t < tMax && OnSphere(s, r.At(t))
        ensures SphereHit(s, r, tMin, tMax, num).Some? && SphereHit(s, r, tMin, tMax, num).value.t <= t
      {
        RootsAreTheIntersections(s, r, num, t);
      }
    }
  }

  /** The stored normal of a hit is the unit outward normal, turned against the ray. */
  lemma SphereHitNormal(s: Sphere, r: Ray, tMin: real, tMax: real, num: Numerics, h: Hit)
    requires num.Valid() && SphereHit(s, r, tMin, tMax, num) == Some(h)
    ensures s.radius != 0.0
    ensures var outward := Div(Sub(h.p, s.center), s.radius);
            Dot(h.n, h.n) == 1.0 && Dot(h.n, r.Direction()) <= 0.0 &&
            (h.n == outward || h.n == Neg(outward)) &&
            (h.frontFace <==> Dot(outward, r.Direction()) < 0.0)
  {
    SphereHitFace(s, r, tMin, tMax, num, h);
    SphereHitOnSurface(s, r, tMin, tMax, num, h);
    NormalOfSurfacePoint(r, s, h.p, h.n);
  }

  lemma NormalOfSurfacePoint(r: Ray, s: Sphere, p: Vec3, n: Vec3)
    requires s.radius != 0.0 && OnSphere(s, p)
    requires n == FaceNormal(r, Div(Sub(p, s.center), s.radius)).1
    ensures Dot(n, n) == 1.0
  {
    UnitOutward(Sub(p, s.center), s.radius);
    FaceNormalOfUnit(r, Div(Sub(p, s.center), s.radius));
  }

  lemma SphereHitOnSurface(s: Sphere, r: Ray, tMin: real, tMax: real, num: Numerics, h: Hit)
    requires num.Valid() && SphereHit(s, r, tMin, tMax, num) == Some(h)
    ensures OnSphere(s, h.p)
  {
    SphereHitSelection(s, r, tMin, tMax, num);
    RootsAreTheIntersections(s, r, num, h.t);
  }

  lemma SphereHitFace(s: Sphere, r: Ray, tMin: real, tMax: real, num: Numerics, h: Hit)
    requires SphereHit(s, r, tMin, tMax, num) == Some(h)
    ensures s.radius != 0.0 && (h.frontFace, h.n) == FaceNormal(r, Div(Sub(h.p, s.center), s.radius))
  {
    PositiveDiscriminant(s, r);
  }

  lemma FaceNormalOfUnit(r: Ray, outward: Vec3)
    requires Dot(outward, outward) == 1.0
    ensures Dot(FaceNormal(r, outward).1, FaceNormal(r, outward).1) == 1.0
  {
    assert Dot(Neg(outward), Neg(outward)) == Dot(outward, outward);
  }
}
