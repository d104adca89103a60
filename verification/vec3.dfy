/** Three-component vectors (src/vec3.h). One type serves as point, direction and colour. */
module Vectors {
  import opened Options

  datatype Vec3 = Vec3(x: real, y: real, z: real) {
    /** Component `i`; the source's `operator[]`. */
    function At(i: int): real
      requires 0 <= i < 3
    {
      if i == 0 then x else if i == 1 then y else z
    }

    /** Every component has magnitude below 1e-8 (`near_zero`). */
    predicate NearZero()
    {
      -NearZeroEps < x < NearZeroEps && -NearZeroEps < y < NearZeroEps && -NearZeroEps < z < NearZeroEps
    }
  }

  const NearZeroEps: real := 0.00000001

  function Zero(): Vec3 { Vec3(0.0, 0.0, 0.0) }

  function Neg(u: Vec3): Vec3 { Vec3(-u.x, -u.y, -u.z) }

  function Add(u: Vec3, v: Vec3): Vec3 { Vec3(u.x + v.x, u.y + v.y, u.z + v.z) }

  function Sub(u: Vec3, v: Vec3): Vec3 { Vec3(u.x - v.x, u.y - v.y, u.z - v.z) }

  /** Componentwise product (used for colours). */
  function Mul(u: Vec3, v: Vec3): Vec3 { Vec3(u.x * v.x, u.y * v.y, u.z * v.z) }

  /** `t * u` and `u * t`. */
  function Scale(t: real, u: Vec3): Vec3 { Vec3(t * u.x, t * u.y, t * u.z) }

  /** `u / t`, computed as `(1/t) * u` like the source. */
  function Div(u: Vec3, t: real): Vec3
    requires t != 0.0
  {
    Scale(1.0 / t, u)
  }

  function Dot(u: Vec3, v: Vec3): real { u.x * v.x + u.y * v.y + u.z * v.z }

  function Cross(u: Vec3, v: Vec3): Vec3
  {
    Vec3(u.y * v.z - u.z * v.y,
         u.z * v.x - u.x * v.z,
         u.x * v.y - u.y * v.x)
  }

  /** Mirror `v` about the plane with normal `n`. */
  function Reflect(v: Vec3, n: Vec3): Vec3 { Sub(v, Scale(2.0 * Dot(v, n), n)) }

  /** The functions of the C library and of the spherical mapping that the model does not
      define: `sqrt`, and the (u,v) that `sphere::get_uv` computes with `acos` and `atan2`.
      They are supplied by the caller. */
  datatype Numerics = Numerics(sqrt: real -> real, sphereUV: Vec3 -> (real, real)) {
    /** `sqrt` returns the non-negative square root of every non-negative argument. */
    ghost predicate Valid()
    {
      forall a: real :: 0.0 <= a ==> 0.0 <= sqrt(a) && sqrt(a) * sqrt(a) == a
    }
  }

  /** `len()`. */
  function Len(u: Vec3, num: Numerics): real { num.sqrt(Dot(u, u)) }

  /** `unit_vector(u)`: `u / len()`; the source divides by zero for the zero vector. */
  function UnitVector(u: Vec3, num: Numerics): (r: Vec3)
    requires num.Valid() && u != Zero()
    ensures Dot(r, r) == 1.0
    ensures exists k: real :: 0.0 < k && r == Scale(k, u)
  {
    DotSelfPositive(u);
    var l := Len(u, num);
    assert l * l == Dot(u, u);
    assert 0.0 < l;
    var k := 1.0 / l;
    assert k * k * Dot(u, u) == 1.0 by {
      assert k * l == 1.0;
      calc {
        k * k * Dot(u, u);
        k * k * (l * l);
        (k * l) * (k * l);
      }
    }
    assert Dot(Scale(k, u), Scale(k, u)) == k * k * Dot(u, u);
    Div(u, l)
  }

  /** `random_on_hemisphere(n)`, given the random unit vector `rv` it draws. */
  function RandomOnHemisphere(rv: Vec3, n: Vec3): (r: Vec3)
    ensures Dot(r, n) >= 0.0
    ensures r == rv || r == Neg(rv)
  {
    if Dot(rv, n) > 0.0 then rv else Neg(rv)
  }

  /** The candidate `random_vector(-1,1)` builds from three draws of `random_double()`. */
  function BallCandidate(d: (real, real, real)): Vec3
  {
    Vec3(-1.0 + 2.0 * d.0, -1.0 + 2.0 * d.1, -1.0 + 2.0 * d.2)
  }

  /** The candidate `random_in_unit_disk` builds from two draws of `random_double()`. */
  function DiskCandidate(d: (real, real)): Vec3
  {
    Vec3(-1.0 + 2.0 * d.0, -1.0 + 2.0 * d.1, 0.0)
  }

  predicate InUnitBall(u: Vec3) { Dot(u, u) < 1.0 }

  /** `random_in_unit_sphere`: the rejection loop over the given draws. The source draws for
      ever; here the loop ends with None when the draws run out. */
  method RandomInUnitSphere(draws: seq<(real, real, real)>) returns (r: Option<Vec3>)
    ensures r.Some? ==> InUnitBall(r.value)
    ensures r.Some? ==> exists k :: 0 <= k < |draws| && r.value == BallCandidate(draws[k]) &&
                         forall j :: 0 <= j < k ==> !InUnitBall(BallCandidate(draws[j]))
    ensures r.None? <==> forall k :: 0 <= k < |draws| ==> !InUnitBall(BallCandidate(draws[k]))
  {
    var i := 0;
    while i < |draws|
      invariant 0 <= i <= |draws|
      invariant forall j :: 0 <= j < i ==> !InUnitBall(BallCandidate(draws[j]))
    {
      var candidate := BallCandidate(draws[i]);
      if Dot(candidate, candidate) < 1.0 {
        return Some(candidate);
      }
      i := i + 1;
    }
    return None;
  }

  /** `random_in_unit_disk`: like RandomInUnitSphere, in the z = 0 plane. */
  method RandomInUnitDisk(draws: seq<(real, real)>) returns (r: Option<Vec3>)
    ensures r.Some? ==> InUnitBall(r.value) && r.value.z == 0.0
    ensures r.Some? ==> exists k :: 0 <= k < |draws| && r.value == DiskCandidate(draws[k]) &&
                         forall j :: 0 <= j < k ==> !InUnitBall(DiskCandidate(draws[j]))
    ensures r.None? <==> forall k :: 0 <= k < |draws| ==> !InUnitBall(DiskCandidate(draws[k]))
  {
    var i := 0;
    while i < |draws|
      invariant 0 <= i <= |draws|
      invariant forall j :: 0 <= j < i ==> !InUnitBall(DiskCandidate(draws[j]))
    {
      var candidate := DiskCandidate(draws[i]);
      if Dot(candidate, candidate) < 1.0 {
        return Some(candidate);
      }
      i := i + 1;
    }
    return None;
  }

  /** The sign of a product, stated over a named product `p` so that the solver treats it as
      one more unknown. */
  lemma ProductPositive(a: real, b: real, p: real)
    requires p == a * b
    requires (a > 0.0 && b > 0.0) || (a < 0.0 && b < 0.0)
    ensures p > 0.0
  {
  }

  lemma ProductNonNegative(a: real, b: real, p: real)
    requires p == a * b
    requires (a >= 0.0 && b >= 0.0) || (a <= 0.0 && b <= 0.0)
    ensures p >= 0.0
  {
  }

  lemma DotSelfNonNegative(u: Vec3)
    ensures Dot(u, u) >= 0.0
  {
    ProductNonNegative(u.x, u.x, u.x * u.x);
    ProductNonNegative(u.y, u.y, u.y * u.y);
    ProductNonNegative(u.z, u.z, u.z * u.z);
  }

  /** Only the zero vector has squared length zero. */
  lemma DotSelfPositive(u: Vec3)
    requires u != Zero()
    ensures Dot(u, u) > 0.0
  {
    ProductNonNegative(u.x, u.x, u.x * u.x);
    ProductNonNegative(u.y, u.y, u.y * u.y);
    ProductNonNegative(u.z, u.z, u.z * u.z);
    if u.x != 0.0 {
      ProductPositive(u.x, u.x, u.x * u.x);
    } else if u.y != 0.0 {
      ProductPositive(u.y, u.y, u.y * u.y);
    } else {
      ProductPositive(u.z, u.z, u.z * u.z);
    }
  }

  lemma NearZeroIff(u: Vec3)
    ensures u.NearZero() <==> forall i :: 0 <= i < 3 ==> -NearZeroEps < u.At(i) < NearZeroEps
  {
    if forall i :: 0 <= i < 3 ==> -NearZeroEps < u.At(i) < NearZeroEps {
      assert u.At(0) == u.x && u.At(1) == u.y && u.At(2) == u.z;
    }
  }

  lemma DotScale(k: real, u: Vec3, v: Vec3)
    ensures Dot(Scale(k, u), v) == k * Dot(u, v)
  {
  }

  lemma DotSymmetric(u: Vec3, v: Vec3)
    ensures Dot(u, v) == Dot(v, u)
  {
  }

  lemma CrossOrthogonal(u: Vec3, v: Vec3)
    ensures Dot(Cross(u, v), u) == 0.0 && Dot(Cross(u, v), v) == 0.0
  {
  }

  lemma CrossAnticommutative(u: Vec3, v: Vec3)
    ensures Cross(u, v) == Neg(Cross(v, u))
  {
  }

  /** Lagrange's identity, from which the Cauchy-Schwarz inequality follows. */
  lemma CauchySchwarz(u: Vec3, v: Vec3)
    ensures Dot(u, v) * Dot(u, v) <= Dot(u, u) * Dot(v, v)
  {
    var c := Cross(u, v);
    assert Dot(u, u) * Dot(v, v) - Dot(u, v) * Dot(u, v) == Dot(c, c);
    DotSelfNonNegative(c);
  }

  /** For a unit normal, reflection negates the normal component and is an involution. */
  lemma ReflectAboutUnitNormal(v: Vec3, n: Vec3)
    requires Dot(n, n) == 1.0
    ensures Dot(Reflect(v, n), n) == -Dot(v, n)
    ensures Reflect(Reflect(v, n), n) == v
  {
    var k := 2.0 * Dot(v, n);
    var w := Reflect(v, n);
    DotAfterSub(v, n, k, w);
    UnitFactor(k, Dot(n, n), k * Dot(n, n));
    var m := 2.0 * Dot(w, n);
    assert m == -k;
    var back := Reflect(w, n);
    SubBack(v.x, n.x, k, w.x, m, back.x);
    SubBack(v.y, n.y, k, w.y, m, back.y);
    SubBack(v.z, n.z, k, w.z, m, back.z);
  }

  /** `(v - k n) . n == v . n - k (n . n)`. */
  lemma DotAfterSub(v: Vec3, n: Vec3, k: real, w: Vec3)
    requires w == Sub(v, Scale(k, n))
    ensures Dot(w, n) == Dot(v, n) - k * Dot(n, n)
  {
  }

  lemma UnitFactor(k: real, t: real, p: real)
    requires t == 1.0 && p == k * t
    ensures p == k
  {
  }

  /** Subtracting `k n` and then `m n` with `m == -k` gives the start back. */
  lemma SubBack(vx: real, nx: real, k: real, wx: real, m: real, rx: real)
    requires wx == vx - k * nx && m == -k && rx == wx - m * nx
    ensures rx == vx
  {
  }

  /** The source's `e[3]` buffer, updated in place by the compound assignments. */
  class MutableVec3 {
    var e: array<real>

    ghost predicate Valid()
      reads this
    {
      e.Length == 3
    }

    function Value(): Vec3
      reads this, e
      requires Valid()
    {
      Vec3(e[0], e[1], e[2])
    }

    constructor (v: Vec3)
      ensures Valid() && fresh(e) && Value() == v
    {
      e := new real[3] [v.x, v.y, v.z];
    }

    /** `operator+=`. */
    method AddAssign(v: Vec3)
      requires Valid()
      modifies e
      ensures Valid() && Value() == Add(old(Value()), v)
    {
      e[0] := e[0] + v.At(0);
      e[1] := e[1] + v.At(1);
      e[2] := e[2] + v.At(2);
    }

    /** `operator*=`. */
    method MulAssign(t: real)
      requires Valid()
      modifies e
      ensures Valid() && Value() == Scale(t, old(Value()))
    {
      e[0] := e[0] * t;
      e[1] := e[1] * t;
      e[2] := e[2] * t;
    }

    /** `operator/=`: multiplies by `1/t`. */
    method DivAssign(t: real)
      requires Valid() && t != 0.0
      modifies e
      ensures Valid() && Value() == Div(old(Value()), t)
      ensures Value() == Scale(1.0 / t, old(Value()))
    {
      MulAssign(1.0 / t);
    }
  }
}
