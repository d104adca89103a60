/** Parallelograms `Q + a u + b v`, `0 <= a, b <= 1` (src/quad.h). */
module Quads {
  import opened Options
  import opened Vectors
  import opened Rays
  import opened Intervals
  import opened Aabbs
  import opened Materials
  import opened Hits

  /** The corner `Q`, the edges `u` and `v`, the material, and what the constructor derives:
      the unit normal, the plane constant `D`, the vector `w` and the bounding box. */
  datatype Quad = Quad(q: Vec3, u: Vec3, v: Vec3, mat: Material, normal: Vec3, d: real, w: Vec3, bbox: Aabb)

  /** `set_bounding_box`: the padded box spanned by `Q` and the opposite corner `Q + u + v`.
      It need not hold the corners `Q + u` and `Q + v` (see `QuadBoxMissesCorner`). */
  function QuadBox(q: Vec3, u: Vec3, v: Vec3): Aabb
  {
    Pad(FromPoints(q, Add(Add(q, u), v)))
  }

  /** What the constructor establishes: `u` and `v` span a plane, `normal` is a non-zero
      multiple of `u x v`, `D` puts `Q` on the plane `dot(normal, p) == D`, and `w` is
      `n / dot(n, n)` for `n = u x v`. */
  ghost predicate Consistent(quad: Quad)
  {
    var n := Cross(quad.u, quad.v);
    Dot(n, n) != 0.0 && quad.w == Scale(1.0 / Dot(n, n), n) && quad.d == Dot(quad.normal, quad.q)
    && exists k: real :: k != 0.0 && quad.normal == Scale(k, n)
  }

  /** The constructor. The source divides by zero when `u` and `v` are parallel; such quads
      are not modelled. */
  function MakeQuad(q: Vec3, u: Vec3, v: Vec3, mat: Material, num: Numerics): (quad: Quad)
    requires num.Valid() && Cross(u, v) != Zero()
    ensures quad.q == q && quad.u == u && quad.v == v && quad.mat == mat && quad.bbox == QuadBox(q, u, v)
    ensures Consistent(quad)
    ensures Dot(quad.normal, quad.normal) == 1.0
    ensures exists k: real :: 0.0 < k && quad.normal == Scale(k, Cross(u, v))
    ensures Dot(quad.w, Cross(u, v)) == 1.0
  {
    var n := Cross(u, v);
    DotSelfPositive(n);
    var normal := UnitVector(n, num);
    var w := Div(n, Dot(n, n));
    DotScale(1.0 / Dot(n, n), n, n);
    Quad(q, u, v, mat, normal, Dot(normal, q), w, QuadBox(q, u, v))
  }

  /** The planar coordinates `alpha`, `beta` of a point, through `w`. */
  function Planar(quad: Quad, p: Vec3): (real, real)
  {
    var h := Sub(p, quad.q);
    (Dot(quad.w, Cross(h, quad.v)), Dot(quad.w, Cross(quad.u, h)))
  }

  /** `is_interior`'s test: both coordinates in [0, 1], boundaries included. */
  predicate Interior(a: real, b: real)
  {
    0.0 <= a <= 1.0 && 0.0 <= b <= 1.0
  }

  const ParallelEps: real := 0.00000001

  /** `fabs(denom) < 1e-8`: the ray runs (nearly) parallel to the plane. */
  predicate Parallel(quad: Quad, r: Ray)
  {
    -ParallelEps < Dot(quad.normal, r.Direction()) < ParallelEps
  }

  /** `quad::hit` as a value: None where the source returns false. */
  function QuadHit(quad: Quad, r: Ray, tMin: real, tMax: real): Option<Hit>
  {
    if Parallel(quad, r) then None
    else
      var t := (quad.d - Dot(quad.normal, r.Origin())) / Dot(quad.normal, r.Direction());
      if t < tMin || t > tMax then None
      else
        var p := r.At(t);
        var (alpha, beta) := Planar(quad, p);
        if !Interior(alpha, beta) then None
        else
          var (front, n) := FaceNormal(r, quad.normal);
          Some(Hit(t, p, n, front, quad.mat, alpha, beta))
  }

  /** `is_interior`: writes `u` and `v` of the record only when it accepts. */
  method IsInterior(a: real, b: real, rec: HitRecord) returns (ok: bool)
    modifies rec
    ensures ok <==> Interior(a, b)
    ensures ok ==> rec.u == a && rec.v == b
    ensures rec.t == old(rec.t) && rec.p == old(rec.p) && rec.n == old(rec.n)
    ensures rec.mat == old(rec.mat) && rec.frontFace == old(rec.frontFace)
    ensures !ok ==> unchanged(rec)
  {
    if a < 0.0 || a > 1.0 || b < 0.0 || b > 1.0 {
      return false;
    }
    rec.u := a;
    rec.v := b;
    return true;
  }

  /** `quad::hit`: writes the record only on a hit. */
  method HitQuad(quad: Quad, r: Ray, tMin: real, tMax: real, rec: HitRecord) returns (hit: bool)
    modifies rec
    ensures hit == QuadHit(quad, r, tMin, tMax).Some?
    ensures hit ==> rec.Holds(QuadHit(quad, r, tMin, tMax).value)
    ensures !hit ==> unchanged(rec)
  {
    var denom := Dot(quad.normal, r.Direction());
    if (if denom < 0.0 then -denom else denom) < ParallelEps {
      return false;
    }
    var t := (quad.d - Dot(quad.normal, r.Origin())) / denom;
    if t < tMin || t > tMax {
      return false;
    }
    var intersection := r.At(t);
    var planarHitptVec := Sub(intersection, quad.q);
    var alpha := Dot(quad.w, Cross(planarHitptVec, quad.v));
    var beta := Dot(quad.w, Cross(quad.u, planarHitptVec));
    var interior := IsInterior(alpha, beta, rec);
    if !interior {
      return false;
    }
    rec.t := t;
    rec.p := intersection;
    rec.mat := Some(quad.mat);
    rec.SetNormalFace(r, quad.normal);
    return true;
  }

  // ---------------------------------------------------------------------------------------
  // Planar coordinates

  /** The point at planar coordinates `(a, b)`: `Q + a u + b v`. */
  function PlanePoint(quad: Quad, a: real, b: real): Vec3
  {
    Add(quad.q, Add(Scale(a, quad.u), Scale(b, quad.v)))
  }

  /** The ray is at the point with planar coordinates `(a, b)` at parameter `t`. */
  predicate MeetsAt(quad: Quad, r: Ray, t: real, a: real, b: real)
  {
    r.At(t) == PlanePoint(quad, a, b)
  }

  lemma DotScaleRight(u: Vec3, k: real, v: Vec3)
    ensures Dot(u, Scale(k, v)) == k * Dot(u, v)
  {
  }

  lemma DotPlanePoint(n: Vec3, quad: Quad, a: real, b: real)
    ensures Dot(n, PlanePoint(quad, a, b)) == Dot(n, quad.q) + a * Dot(n, quad.u) + b * Dot(n, quad.v)
  {
  }

  /** The cross product of `w = a u + b v` with `v`, one component written out; the vector
      lemmas below rotate the axes. */
  lemma CrossOfCombinationComponent(a: real, b: real, uy: real, uz: real, vy: real, vz: real, wy: real, wz: real,
                                     c: real)
    requires wy == a * uy + b * vy && wz == a * uz + b * vz && c == uy * vz - uz * vy
    ensures wy * vz - wz * vy == a * c
  {
  }

  lemma CrossOfCombinationX(a: real, b: real, u: Vec3, v: Vec3)
    ensures Cross(Add(Scale(a, u), Scale(b, v)), v).x == a * Cross(u, v).x
  {
    var w := Add(Scale(a, u), Scale(b, v));
    CrossOfCombinationComponent(a, b, u.y, u.z, v.y, v.z, w.y, w.z, Cross(u, v).x);
  }

  lemma CrossOfCombinationY(a: real, b: real, u: Vec3, v: Vec3)
    ensures Cross(Add(Scale(a, u), Scale(b, v)), v).y == a * Cross(u, v).y
  {
    var w := Add(Scale(a, u), Scale(b, v));
    CrossOfCombinationComponent(a, b, u.z, u.x, v.z, v.x, w.z, w.x, Cross(u, v).y);
  }

  lemma CrossOfCombinationZ(a: real, b: real, u: Vec3, v: Vec3)
    ensures Cross(Add(Scale(a, u), Scale(b, v)), v).z == a * Cross(u, v).z
  {
    var w := Add(Scale(a, u), Scale(b, v));
    CrossOfCombinationComponent(a, b, u.x, u.y, v.x, v.y, w.x, w.y, Cross(u, v).z);
  }

  /** `(a u + b v) x v == a (u x v)`. */
  lemma CrossOfCombination(a: real, b: real, u: Vec3, v: Vec3)
    ensures Cross(Add(Scale(a, u), Scale(b, v)), v) == Scale(a, Cross(u, v))
  {
    CrossOfCombinationX(a, b, u, v);
    CrossOfCombinationY(a, b, u, v);
    CrossOfCombinationZ(a, b, u, v);
  }

  /** `u x (a u + b v) == b (u x v)`, from the previous lemma and anticommutativity. */
  lemma CrossWithCombination(a: real, b: real, u: Vec3, v: Vec3)
    ensures Cross(u, Add(Scale(a, u), Scale(b, v))) == Scale(b, Cross(u, v))
  {
    var w := Add(Scale(a, u), Scale(b, v));
    assert w == Add(Scale(b, v), Scale(a, u));
    CrossOfCombination(b, a, v, u);
    CrossAnticommutative(u, w);
    CrossAnticommutative(v, u);
    NegScaleNeg(b, Cross(u, v), Cross(v, u), Cross(w, u));
  }

  /** `c = -d` and `e = b d` give `-e = b c`. */
  lemma NegScaleNeg(b: real, c: Vec3, d: Vec3, e: Vec3)
    requires c == Neg(d) && e == Scale(b, d)
    ensures Neg(e) == Scale(b, c)
  {
  }

  lemma DotSub(n: Vec3, p: Vec3, q: Vec3)
    ensures Dot(n, Sub(p, q)) == Dot(n, p) - Dot(n, q)
  {
  }

  /** One component of `BasisIdentity` written out, with `n = u x v`, `c = h x v` and
      `d = u x h` and the dot products passed in; the vector lemmas below rotate the axes. */
  lemma BasisIdentityComponent(ux: real, uy: real, uz: real, vx: real, vy: real, vz: real, hx: real, hy: real, hz: real,
                               nn: real, nc: real, nd: real, nh: real)
    requires var n1, n2, n3 := uy * vz - uz * vy, uz * vx - ux * vz, ux * vy - uy * vx;
      var c1, c2, c3 := hy * vz - hz * vy, hz * vx - hx * vz, hx * vy - hy * vx;
      var d1, d2, d3 := uy * hz - uz * hy, uz * hx - ux * hz, ux * hy - uy * hx;
      nn == n1 * n1 + n2 * n2 + n3 * n3 && nc == n1 * c1 + n2 * c2 + n3 * c3
      && nd == n1 * d1 + n2 * d2 + n3 * d3 && nh == n1 * hx + n2 * hy + n3 * hz
    ensures nn * hx == nc * ux + nd * vx + nh * (uy * vz - uz * vy)
  {
  }

  /** The coefficients of `u`, `v` and `n` in `BasisIdentity`. */
  function Coordinates(u: Vec3, v: Vec3, h: Vec3): (real, real, real)
  {
    var n := Cross(u, v);
    (Dot(n, Cross(h, v)), Dot(n, Cross(u, h)), Dot(n, h))
  }

  /** `dot(u x v, u x v)` with the products written out. */
  lemma NormExpanded(u: Vec3, v: Vec3)
    ensures Dot(Cross(u, v), Cross(u, v)) ==
      (u.y * v.z - u.z * v.y) * (u.y * v.z - u.z * v.y) + (u.z * v.x - u.x * v.z) * (u.z * v.x - u.x * v.z)
      + (u.x * v.y - u.y * v.x) * (u.x * v.y - u.y * v.x)
  {
  }

  /** The first coordinate with the products written out. */
  lemma FirstCoordinateExpanded(u: Vec3, v: Vec3, h: Vec3)
    ensures Coordinates(u, v, h).0 ==
      (u.y * v.z - u.z * v.y) * (h.y * v.z - h.z * v.y) + (u.z * v.x - u.x * v.z) * (h.z * v.x - h.x * v.z)
      + (u.x * v.y - u.y * v.x) * (h.x * v.y - h.y * v.x)
  {
  }

  /** The second coordinate with the products written out. */
  lemma SecondCoordinateExpanded(u: Vec3, v: Vec3, h: Vec3)
    ensures Coordinates(u, v, h).1 ==
      (u.y * v.z - u.z * v.y) * (u.y * h.z - u.z * h.y) + (u.z * v.x - u.x * v.z) * (u.z * h.x - u.x * h.z)
      + (u.x * v.y - u.y * v.x) * (u.x * h.y - u.y * h.x)
  {
  }

  /** The third coordinate with the products written out. */
  lemma ThirdCoordinateExpanded(u: Vec3, v: Vec3, h: Vec3)
    ensures Coordinates(u, v, h).2 ==
      (u.y * v.z - u.z * v.y) * h.x + (u.z * v.x - u.x * v.z) * h.y + (u.x * v.y - u.y * v.x) * h.z
  {
  }

  lemma BasisIdentityX(u: Vec3, v: Vec3, h: Vec3)
    ensures var (a, b, c) := Coordinates(u, v, h);
      Dot(Cross(u, v), Cross(u, v)) * h.x == a * u.x + b * v.x + c * Cross(u, v).x
  {
    Expanded(u, v, h);
    BasisIdentityComponent(u.x, u.y, u.z, v.x, v.y, v.z, h.x, h.y, h.z, Dot(Cross(u, v), Cross(u, v)),
                           Coordinates(u, v, h).0, Coordinates(u, v, h).1, Coordinates(u, v, h).2);
  }

  lemma BasisIdentityY(u: Vec3, v: Vec3, h: Vec3)
    ensures var (a, b, c) := Coordinates(u, v, h);
      Dot(Cross(u, v), Cross(u, v)) * h.y == a * u.y + b * v.y + c * Cross(u, v).y
  {
    Expanded(u, v, h);
    BasisIdentityComponent(u.y, u.z, u.x, v.y, v.z, v.x, h.y, h.z, h.x, Dot(Cross(u, v), Cross(u, v)),
                           Coordinates(u, v, h).0, Coordinates(u, v, h).1, Coordinates(u, v, h).2);
  }

  lemma BasisIdentityZ(u: Vec3, v: Vec3, h: Vec3)
    ensures var (a, b, c) := Coordinates(u, v, h);
      Dot(Cross(u, v), Cross(u, v)) * h.z == a * u.z + b * v.z + c * Cross(u, v).z
  {
    Expanded(u, v, h);
    BasisIdentityComponent(u.z, u.x, u.y, v.z, v.x, v.y, h.z, h.x, h.y, Dot(Cross(u, v), Cross(u, v)),
                           Coordinates(u, v, h).0, Coordinates(u, v, h).1, Coordinates(u, v, h).2);
  }

  lemma Expanded(u: Vec3, v: Vec3, h: Vec3)
    ensures Dot(Cross(u, v), Cross(u, v)) ==
      (u.y * v.z - u.z * v.y) * (u.y * v.z - u.z * v.y) + (u.z * v.x - u.x * v.z) * (u.z * v.x - u.x * v.z)
      + (u.x * v.y - u.y * v.x) * (u.x * v.y - u.y * v.x)
    ensures Coordinates(u, v, h).0 ==
      (u.y * v.z - u.z * v.y) * (h.y * v.z - h.z * v.y) + (u.z * v.x - u.x * v.z) * (h.z * v.x - h.x * v.z)
      + (u.x * v.y - u.y * v.x) * (h.x * v.y - h.y * v.x)
    ensures Coordinates(u, v, h).1 ==
      (u.y * v.z - u.z * v.y) * (u.y * h.z - u.z * h.y) + (u.z * v.x - u.x * v.z) * (u.z * h.x - u.x * h.z)
      + (u.x * v.y - u.y * v.x) * (u.x * h.y - u.y * h.x)
    ensures Coordinates(u, v, h).2 ==
      (u.y * v.z - u.z * v.y) * h.x + (u.z * v.x - u.x * v.z) * h.y + (u.x * v.y - u.y * v.x) * h.z
  {
    NormExpanded(u, v);
    FirstCoordinateExpanded(u, v, h);
    SecondCoordinateExpanded(u, v, h);
    ThirdCoordinateExpanded(u, v, h);
  }

  /** Every vector is a combination of `u`, `v` and `n = u x v`, with coefficients given by
      triple products. */
  lemma BasisIdentity(u: Vec3, v: Vec3, h: Vec3)
    ensures var (a, b, c) := Coordinates(u, v, h);
      Scale(Dot(Cross(u, v), Cross(u, v)), h) == Add(Add(Scale(a, u), Scale(b, v)), Scale(c, Cross(u, v)))
  {
    BasisIdentityX(u, v, h);
    BasisIdentityY(u, v, h);
    BasisIdentityZ(u, v, h);
  }

  /** Round trip one way: the planar coordinates of `Q + a u + b v` are `(a, b)`. */
  lemma PlanarOfPlanePoint(quad: Quad, a: real, b: real)
    requires Consistent(quad)
    ensures Planar(quad, PlanePoint(quad, a, b)) == (a, b)
  {
    var n := Cross(quad.u, quad.v);
    var h := Add(Scale(a, quad.u), Scale(b, quad.v));
    assert Sub(PlanePoint(quad, a, b), quad.q) == h;
    CrossOfCombination(a, b, quad.u, quad.v);
    CrossWithCombination(a, b, quad.u, quad.v);
    assert Dot(quad.w, n) == 1.0 by {
      DotScale(1.0 / Dot(n, n), n, n);
    }
    DotScaleRight(quad.w, a, n);
    DotScaleRight(quad.w, b, n);
  }

  /** Every point `Q + a u + b v` lies on the plane `dot(normal, p) == D`. */
  lemma PlanePointOnPlane(quad: Quad, a: real, b: real)
    requires Consistent(quad)
    ensures Dot(quad.normal, PlanePoint(quad, a, b)) == quad.d
  {
    var n := Cross(quad.u, quad.v);
    var k :| k != 0.0 && quad.normal == Scale(k, n);
    CrossOrthogonal(quad.u, quad.v);
    DotScale(k, n, quad.u);
    DotScale(k, n, quad.v);
    DotPlanePoint(quad.normal, quad, a, b);
  }

  /** A point on the plane is, seen from `Q`, orthogonal to `u x v`. */
  lemma OnPlaneOrthogonal(quad: Quad, p: Vec3)
    requires Consistent(quad) && Dot(quad.normal, p) == quad.d
    ensures Dot(Cross(quad.u, quad.v), Sub(p, quad.q)) == 0.0
  {
    var n := Cross(quad.u, quad.v);
    var k :| k != 0.0 && quad.normal == Scale(k, n);
    DotScale(k, n, p);
    DotScale(k, n, quad.q);
    DotSub(n, p, quad.q);
    var x := Dot(n, Sub(p, quad.q));
    assert k * x == k * Dot(n, p) - k * Dot(n, quad.q);
    ProductZero(k, x, k * x);
  }

  /** The planar coordinates are the first two triple-product coordinates over `dot(n, n)`. */
  lemma PlanarIsScaledCoordinates(quad: Quad, p: Vec3)
    requires Consistent(quad)
    ensures Planar(quad, p).0 == Coordinates(quad.u, quad.v, Sub(p, quad.q)).0 / Dot(Cross(quad.u, quad.v), Cross(quad.u, quad.v))
    ensures Planar(quad, p).1 == Coordinates(quad.u, quad.v, Sub(p, quad.q)).1 / Dot(Cross(quad.u, quad.v), Cross(quad.u, quad.v))
  {
    var n := Cross(quad.u, quad.v);
    var h := Sub(p, quad.q);
    DotScale(1.0 / Dot(n, n), n, Cross(h, quad.v));
    DotScale(1.0 / Dot(n, n), n, Cross(quad.u, h));
  }

  /** Round trip the other way: a point of the plane is `Q + alpha u + beta v` for its own
      planar coordinates. */
  lemma PlanePointOfPlanar(quad: Quad, p: Vec3)
    requires Consistent(quad) && Dot(quad.normal, p) == quad.d
    ensures PlanePoint(quad, Planar(quad, p).0, Planar(quad, p).1) == p
  {
    var h := Sub(p, quad.q);
    OnPlaneOrthogonal(quad, p);
    PlanarIsScaledCoordinates(quad, p);
    Reconstruct(quad.u, quad.v, h);
    assert Add(quad.q, h) == p;
  }

  /** A vector orthogonal to `n = u x v` is the combination of `u` and `v` with the first
      two triple-product coordinates over `dot(n, n)`. */
  lemma Reconstruct(u: Vec3, v: Vec3, h: Vec3)
    requires Dot(Cross(u, v), Cross(u, v)) != 0.0 && Dot(Cross(u, v), h) == 0.0
    ensures h == Add(Scale(Coordinates(u, v, h).0 / Dot(Cross(u, v), Cross(u, v)), u),
                     Scale(Coordinates(u, v, h).1 / Dot(Cross(u, v), Cross(u, v)), v))
  {
    BasisIdentityX(u, v, h);
    BasisIdentityY(u, v, h);
    BasisIdentityZ(u, v, h);
    var c := Coordinates(u, v, h);
    DivMul(c.0, Dot(Cross(u, v), Cross(u, v)));
    DivMul(c.1, Dot(Cross(u, v), Cross(u, v)));
    ScaleDown(Dot(Cross(u, v), Cross(u, v)), c.0, c.0 / Dot(Cross(u, v), Cross(u, v)), u,
              c.1, c.1 / Dot(Cross(u, v), Cross(u, v)), v, c.2, Cross(u, v), h);
  }

  // ---------------------------------------------------------------------------------------
  // What a hit is

  lemma DotAlongRay(n: Vec3, r: Ray, t: real)
    ensures Dot(n, r.At(t)) == Dot(n, r.Origin()) + t * Dot(n, r.Direction())
  {
  }

  lemma SolveLinear(t: real, den: real, c: real)
    requires den != 0.0
    ensures t * den == c <==> t == c / den
  {
  }

  /** The ray meets the plane `dot(nrm, p) == d` exactly at the parameter `hit` computes. */
  lemma PlaneParameter(nrm: Vec3, d: real, r: Ray, t: real)
    requires Dot(nrm, r.Direction()) != 0.0
    ensures Dot(nrm, r.At(t)) == d <==> t == (d - Dot(nrm, r.Origin())) / Dot(nrm, r.Direction())
  {
    DotAlongRay(nrm, r, t);
    SolveLinear(t, Dot(nrm, r.Direction()), d - Dot(nrm, r.Origin()));
  }

  /** What a hit records: a parameter in `[t_min, t_max]` (both ends included), a ray that is
      not parallel to the plane, the ray point on the plane, planar coordinates in the unit
      square, the quad's material and the normal oriented by `set_normal_face`. */
  lemma QuadHitProperties(quad: Quad, r: Ray, tMin: real, tMax: real, h: Hit)
    requires QuadHit(quad, r, tMin, tMax) == Some(h)
    ensures tMin <= h.t <= tMax && !Parallel(quad, r)
    ensures h.p == r.At(h.t) && Dot(quad.normal, h.p) == quad.d
    ensures (h.u, h.v) == Planar(quad, h.p) && Interior(h.u, h.v)
    ensures h.mat == quad.mat && (h.frontFace, h.n) == FaceNormal(r, quad.normal)
  {
    PlaneParameter(quad.normal, quad.d, r, h.t);
  }

  /** The parameter of a quad hit does not depend on the range: moving the upper end of the
      range to any value at or above it keeps the same hit. */
  lemma QuadHitRangeChange(quad: Quad, r: Ray, tMin: real, tMax: real, c: real)
    requires QuadHit(quad, r, tMin, tMax).Some? && QuadHit(quad, r, tMin, tMax).value.t <= c
    ensures QuadHit(quad, r, tMin, c) == QuadHit(quad, r, tMin, tMax)
  {
  }

  /** A quad is hit exactly when the ray is not parallel to it and reaches one of its points
      at a parameter in range; the hit reports that parameter and the point's coordinates. */
  lemma QuadHitMeaning(quad: Quad, r: Ray, tMin: real, tMax: real)
    requires Consistent(quad)
    ensures QuadHit(quad, r, tMin, tMax).Some? <==>
      !Parallel(quad, r) && exists t, a, b :: tMin <= t <= tMax && Interior(a, b) && MeetsAt(quad, r, t, a, b)
    ensures QuadHit(quad, r, tMin, tMax).Some? ==>
      var h := QuadHit(quad, r, tMin, tMax).value; MeetsAt(quad, r, h.t, h.u, h.v)
  {
    if QuadHit(quad, r, tMin, tMax).Some? {
      HitMeets(quad, r, tMin, tMax);
    }
    if !Parallel(quad, r) && exists t, a, b :: tMin <= t <= tMax && Interior(a, b) && MeetsAt(quad, r, t, a, b) {
      var t, a, b :| tMin <= t <= tMax && Interior(a, b) && MeetsAt(quad, r, t, a, b);
      MeetingHits(quad, r, tMin, tMax, t, a, b);
    }
  }

  lemma HitMeets(quad: Quad, r: Ray, tMin: real, tMax: real)
    requires Consistent(quad) && QuadHit(quad, r, tMin, tMax).Some?
    ensures var h := QuadHit(quad, r, tMin, tMax).value;
      !Parallel(quad, r) && tMin <= h.t <= tMax && Interior(h.u, h.v) && MeetsAt(quad, r, h.t, h.u, h.v)
  {
    var h := QuadHit(quad, r, tMin, tMax).value;
    QuadHitProperties(quad, r, tMin, tMax, h);
    PlanePointOfPlanar(quad, h.p);
  }

  lemma MeetingHits(quad: Quad, r: Ray, tMin: real, tMax: real, t: real, a: real, b: real)
    requires Consistent(quad) && !Parallel(quad, r) && tMin <= t <= tMax && Interior(a, b) && MeetsAt(quad, r, t, a, b)
    ensures QuadHit(quad, r, tMin, tMax).Some?
  {
    MeetingIsTheHit(quad, r, t, a, b);
  }

  /** Where a non-parallel ray meets the plane, `hit` computes exactly that parameter and
      those coordinates: the meeting point is unique. */
  lemma MeetingIsTheHit(quad: Quad, r: Ray, t: real, a: real, b: real)
    requires Consistent(quad) && !Parallel(quad, r) && MeetsAt(quad, r, t, a, b)
    ensures t == (quad.d - Dot(quad.normal, r.Origin())) / Dot(quad.normal, r.Direction())
    ensures Planar(quad, r.At(t)) == (a, b)
  {
    PlanePointOnPlane(quad, a, b);
    PlaneParameter(quad.normal, quad.d, r, t);
    PlanarOfPlanePoint(quad, a, b);
  }

  // ---------------------------------------------------------------------------------------
  // Bounding boxes

  /** `set_bounding_box` as written leaves out part of a skewed quad: when the edges cancel
      on an axis (`v.x == -u.x`, as for `u = (1, 0, 0)` and `v = (-1, 1, 0)`) the diagonal box
      is flat there, padding makes it `PadDelta` thick around `Q`, and the corner `Q + u`,
      the point with coordinates `(1, 0)`, lies outside. */
  lemma QuadBoxMissesCorner(q: Vec3, u: Vec3, v: Vec3)
    requires v.x == -u.x && u.x > PadDelta / 2.0
    ensures Interior(1.0, 0.0)
    ensures !QuadBox(q, u, v).ContainsPoint(Add(q, Add(Scale(1.0, u), Scale(0.0, v))))
  {
    var xs := FromPoints(q, Add(Add(q, u), v)).x;
    var p := Add(q, Add(Scale(1.0, u), Scale(0.0, v)));
    assert xs == Interval(Fin(q.x), Fin(q.x));
    FlatAxisPadded(xs, q.x);
    OutsideX(QuadBox(q, u, v), p);
  }

  /** Padding a flat axis `[c, c]` gives `[c - PadDelta / 2, c + PadDelta / 2]`. */
  lemma FlatAxisPadded(axis: Interval, c: real)
    requires axis == Interval(Fin(c), Fin(c))
    ensures PadAxis(axis) == Interval(Fin(c - PadDelta / 2.0), Fin(c + PadDelta / 2.0))
  {
    assert axis.Size() == Some(Fin(0.0));
  }

  lemma OutsideX(box: Aabb, p: Vec3)
    requires !box.x.Contains(p.x)
    ensures !box.ContainsPoint(p)
  {
  }

  /** The box holds `Q` and the opposite corner `Q + u + v`, and every axis is at least
      `PadDelta` thick. */
  lemma QuadBoxCorners(q: Vec3, u: Vec3, v: Vec3)
    ensures QuadBox(q, u, v).ContainsPoint(q) && QuadBox(q, u, v).ContainsPoint(Add(Add(q, u), v))
    ensures forall i :: 0 <= i < 3 ==> AtLeast(QuadBox(q, u, v).Axis(i).Size(), PadDelta)
  {
    var box := FromPoints(q, Add(Add(q, u), v));
    PadProperties(box);
    assert box.Axis(0) == box.x && box.Axis(1) == box.y && box.Axis(2) == box.z;
  }

  lemma ProductZero(x: real, y: real, p: real)
    requires p == x * y && p == 0.0 && x != 0.0
    ensures y == 0.0
  {
  }

  /** Cancelling a non-zero factor: `k h == (ak k) u + (bk k) v + 0 w` gives
      `h == ak u + bk v`. */
  lemma DivideOut(k: real, a: real, ak: real, u: real, b: real, bk: real, v: real, c: real, w: real, h: real)
    requires k != 0.0 && a == ak * k && b == bk * k && c == 0.0 && k * h == a * u + b * v + c * w
    ensures h == ak * u + bk * v
  {
    assert c * w == 0.0;
    var d := h - (ak * u + bk * v);
    assert k * d == k * h - (a * u + b * v);
    ProductZero(k, d, k * d);
  }

  lemma DivMul(x: real, k: real)
    requires k != 0.0
    ensures x == (x / k) * k
  {
  }

  lemma ScaleDown(k: real, a: real, ak: real, u: Vec3, b: real, bk: real, v: Vec3, c: real, n: Vec3, h: Vec3)
    requires k != 0.0 && a == ak * k && b == bk * k && c == 0.0
    requires k * h.x == a * u.x + b * v.x + c * n.x
    requires k * h.y == a * u.y + b * v.y + c * n.y
    requires k * h.z == a * u.z + b * v.z + c * n.z
    ensures h == Add(Scale(ak, u), Scale(bk, v))
  {
    DivideOut(k, a, ak, u.x, b, bk, v.x, c, n.x, h.x);
    DivideOut(k, a, ak, u.y, b, bk, v.y, c, n.y, h.y);
    DivideOut(k, a, ak, u.z, b, bk, v.z, c, n.z, h.z);
  }
}
