/** The two materials and their scatter rules (src/material.h). */
module Materials {
  import opened Vectors
  import opened Rays

  /** `lambertian(albedo)` and `metal(albedo, fuzz)`. `fuzz` is stored as given: nothing
      clamps it. */
  datatype Material = Lambertian(albedo: Vec3) | Metal(albedo: Vec3, fuzz: real)

  /** Lambertian scatter direction: `N + rv`, or `N` itself when that sum is near zero. */
  function LambertianDirection(n: Vec3, rv: Vec3): (d: Vec3)
    ensures Add(n, rv).NearZero() ==> d == n
    ensures !Add(n, rv).NearZero() ==> d == Add(n, rv)
    ensures !n.NearZero() ==> !d.NearZero()
  {
    var sum := Add(n, rv);
    if sum.NearZero() then n else sum
  }

  /** Metal scatter direction: the mirror image of the unit incoming direction, perturbed by
      `fuzz` times the random unit vector. */
  function MetalDirection(dIn: Vec3, n: Vec3, fuzz: real, rv: Vec3, num: Numerics): Vec3
    requires num.Valid() && dIn != Zero()
  {
    Add(Reflect(UnitVector(dIn, num), n), Scale(fuzz, rv))
  }

  /** `lambertian::scatter`. `n` and `p` are the `N` and `p` of the hit record, the only
      fields it reads; `rv` is the value `random_unit_vector()` returns. */
  method ScatterLambertian(albedo: Vec3, rIn: Ray, n: Vec3, p: Vec3, rv: Vec3)
    returns (ok: bool, attenuation: Vec3, scattered: Ray)
    ensures ok
    ensures attenuation == albedo && scattered.Origin() == p
    ensures scattered.Direction() == LambertianDirection(n, rv)
  {
    var scatterDir := Add(n, rv);
    if scatterDir.NearZero() {
      scatterDir := n;
    }
    scattered := Ray(scatterDir, p);
    attenuation := albedo;
    ok := true;
  }

  /** `metal::scatter`: the attenuation is written even when the ray is absorbed. */
  method ScatterMetal(albedo: Vec3, fuzz: real, rIn: Ray, n: Vec3, p: Vec3, rv: Vec3, num: Numerics)
    returns (ok: bool, attenuation: Vec3, scattered: Ray)
    requires num.Valid() && rIn.Direction() != Zero()
    ensures attenuation == albedo && scattered.Origin() == p
    ensures scattered.Direction() == MetalDirection(rIn.Direction(), n, fuzz, rv, num)
    ensures ok <==> Dot(scattered.Direction(), n) > 0.0
  {
    var reflectedDir := Reflect(UnitVector(rIn.Direction(), num), n);
    scattered := Ray(Add(reflectedDir, Scale(fuzz, rv)), p);
    attenuation := albedo;
    ok := Dot(scattered.Direction(), n) > 0.0;
  }

  /** `material::scatter`, dispatched on the kind of material. */
  method Scatter(m: Material, rIn: Ray, n: Vec3, p: Vec3, rv: Vec3, num: Numerics)
    returns (ok: bool, attenuation: Vec3, scattered: Ray)
    requires num.Valid() && rIn.Direction() != Zero()
    ensures attenuation == m.albedo && scattered.Origin() == p
    ensures m.Lambertian? ==> ok && scattered.Direction() == LambertianDirection(n, rv)
    ensures m.Metal? ==> scattered.Direction() == MetalDirection(rIn.Direction(), n, m.fuzz, rv, num)
                         && (ok <==> Dot(scattered.Direction(), n) > 0.0)
  {
    match m
    case Lambertian(albedo) =>
      ok, attenuation, scattered := ScatterLambertian(albedo, rIn, n, p, rv);
    case Metal(albedo, fuzz) =>
      ok, attenuation, scattered := ScatterMetal(albedo, fuzz, rIn, n, p, rv, num);
  }

  /** From `x * x <= 1` follows `x >= -1`. */
  lemma SquareAtMostOne(x: real, sq: real)
    requires sq == x * x && sq <= 1.0
    ensures x >= -1.0
  {
  }

  /** With a unit normal and a unit random vector, a Lambertian surface scatters into the
      hemisphere of the normal. */
  lemma LambertianIntoHemisphere(n: Vec3, rv: Vec3)
    requires Dot(n, n) == 1.0 && Dot(rv, rv) == 1.0
    ensures Dot(LambertianDirection(n, rv), n) >= 0.0
  {
    CauchySchwarz(rv, n);
    var x := Dot(rv, n);
    assert x * x <= 1.0;
    SquareAtMostOne(x, x * x);
    assert Dot(Add(n, rv), n) == Dot(n, n) + x;
  }

  /** A perfect mirror (`fuzz == 0`) reflects the unit incoming direction about a unit normal,
      and keeps the ray exactly when it arrives against the normal. */
  lemma MetalMirror(dIn: Vec3, n: Vec3, rv: Vec3, num: Numerics)
    requires num.Valid() && dIn != Zero() && Dot(n, n) == 1.0
    ensures MetalDirection(dIn, n, 0.0, rv, num) == Reflect(UnitVector(dIn, num), n)
    ensures Dot(MetalDirection(dIn, n, 0.0, rv, num), n) > 0.0 <==> Dot(dIn, n) < 0.0
  {
    var u := UnitVector(dIn, num);
    var k :| 0.0 < k && u == Scale(k, dIn);
    ReflectAboutUnitNormal(u, n);
    DotScale(k, dIn, n);
    var x := Dot(dIn, n);
    if x < 0.0 {
      ProductPositive(k, -x, k * -x);
    } else {
      ProductNonNegative(k, x, k * x);
    }
  }
}
