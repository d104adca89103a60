/** Rays `orig + t * dir` (src/ray.h). */
module Rays {
  import opened Vectors

  /** The constructor takes the direction FIRST and the origin second, as the source does. */
  datatype Ray = Ray(dir: Vec3, orig: Vec3) {
    function Origin(): Vec3 { orig }

    function Direction(): Vec3 { dir }

    /** The point at parameter `t`. */
    function At(t: real): (p: Vec3)
      ensures Sub(p, orig) == Scale(t, dir)
    {
      Add(orig, Scale(t, dir))
    }
  }

  /** The first constructor argument comes back as the direction, the second as the origin. */
  lemma ConstructorOrder(d: Vec3, o: Vec3)
    ensures Ray(d, o).Direction() == d && Ray(d, o).Origin() == o
  {
  }

  lemma AtZeroIsOrigin(r: Ray)
    ensures r.At(0.0) == r.Origin()
  {
  }

  lemma AtOneIsOriginPlusDirection(r: Ray)
    ensures r.At(1.0) == Add(r.Origin(), r.Direction())
  {
  }

  /** Moving along the ray is linear in the parameter. */
  lemma AtDifference(r: Ray, s: real, t: real)
    ensures Sub(r.At(s), r.At(t)) == Scale(s - t, r.Direction())
  {
  }
}
