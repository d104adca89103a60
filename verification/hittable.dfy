/** Hit records and the orientation of the surface normal (src/hittable.h). */
module Hits {
  import opened Options
  import opened Vectors
  import opened Rays
  import opened Materials

  /** Everything a successful `hit` writes into a record. */
  datatype Hit = Hit(t: real, p: Vec3, n: Vec3, frontFace: bool, mat: Material, u: real, v: real)

  /** `set_normal_face` as a value: `front_face` and the stored normal for a ray and an
      outward normal. */
  function FaceNormal(r: Ray, outward: Vec3): (f: (bool, Vec3))
    ensures f.0 <==> Dot(outward, r.Direction()) < 0.0
    ensures f.1 == outward || f.1 == Neg(outward)
    ensures f.0 ==> f.1 == outward
    ensures Dot(f.1, r.Direction()) <= 0.0
  {
    var front := Dot(outward, r.Direction()) < 0.0;
    (front, if front then outward else Neg(outward))
  }

  /** `hit_record`. The fields `u` and `v` are written by the primitives although the
      declaration does not list them; they are part of the record here. `mat` starts out as
      the null pointer. */
  class HitRecord {
    var n: Vec3
    var p: Vec3
    var t: real
    var mat: Option<Material>
    var frontFace: bool
    var u: real
    var v: real

    constructor ()
      ensures mat == None
    {
      n, p, t := Zero(), Zero(), 0.0;
      mat := None;
      frontFace, u, v := false, 0.0, 0.0;
    }

    /** The record holds exactly the values of `h`. */
    predicate Holds(h: Hit)
      reads this
    {
      t == h.t && p == h.p && n == h.n && frontFace == h.frontFace && mat == Some(h.mat) && u == h.u && v == h.v
    }

    /** `set_normal_face`: writes `front_face` and `N` and nothing else. */
    method SetNormalFace(r: Ray, outward: Vec3)
      modifies this
      ensures (frontFace, n) == FaceNormal(r, outward)
      ensures p == old(p) && t == old(t) && mat == old(mat) && u == old(u) && v == old(v)
    {
      frontFace := Dot(outward, r.Direction()) < 0.0;
      n := if frontFace then outward else Neg(outward);
    }

    /** The copy assignment `rec = temp_rec`. */
    method CopyFrom(other: HitRecord)
      modifies this
      ensures t == other.t && p == other.p && n == other.n && frontFace == other.frontFace
      ensures mat == other.mat && u == other.u && v == other.v
    {
      t, p, n, frontFace := other.t, other.p, other.n, other.frontFace;
      mat, u, v := other.mat, other.u, other.v;
    }
  }

  /** The normal stored by `set_normal_face` faces against the ray and is the outward normal
      exactly when the ray arrives from outside. */
  lemma FaceNormalOrientation(r: Ray, outward: Vec3)
    ensures FaceNormal(r, outward).1 == outward <==> Dot(outward, r.Direction()) < 0.0 || outward == Zero()
  {
  }
}
