// hittable.h: the record a successful intersection fills in, and the protocol
// every primitive follows. A C++ `hit` writes the fields of a `hit_record &`
// out-parameter and returns a bool; here the record is a value passed in and
// returned together with the verdict. The record's material pointer is a type
// parameter, so that the geometry does not depend on the material module.

module Hittables {
  import opened Vectors
  import opened Rays

  datatype HitRecord<M> = HitRecord(p: Vec3, normal: Vec3, t: real, frontFace: bool, u: real, v: real, mat: M)
  {
    /**
     * hit_record::set_face_normal: the record faces the ray when the ray runs
     * against the outward normal, and the stored normal is turned to face the ray.
     */
    function SetFaceNormal(r: Ray, outward: Vec3): (rec: HitRecord<M>)
      ensures rec.frontFace <==> Dot(r.direction, outward) < 0.0
      ensures rec.frontFace ==> rec.normal == outward
      ensures !rec.frontFace ==> rec.normal == Scale(outward, -1.0)
      ensures rec.p == p && rec.t == t && rec.u == u && rec.v == v && rec.mat == mat
    {
      var front := Dot(r.direction, outward) < 0.0;
      this.(frontFace := front, normal := if front then outward else Scale(outward, -1.0))
    }
  }

  /** What a primitive's `hit` produces: the returned bool and the record after the call. */
  datatype HitOutcome<M> = HitOutcome(hit: bool, rec: HitRecord<M>)

  /** A miss: false, and the caller's record exactly as it was. */
  function Miss<M>(rec: HitRecord<M>): (o: HitOutcome<M>)
    ensures !o.hit && o.rec == rec
  {
    HitOutcome(false, rec)
  }

  /** After set_face_normal the stored normal never points along the ray. */
  lemma FaceNormalOpposesRay<M>(rec: HitRecord<M>, r: Ray, outward: Vec3)
    ensures Dot(r.direction, rec.SetFaceNormal(r, outward).normal) <= 0.0
  {
    var rec' := rec.SetFaceNormal(r, outward);
    if !rec'.frontFace {
      DotScale(r.direction, outward, -1.0);
    }
  }

  /**
   * A primitive's verdict is well formed when a miss leaves the record alone
   * and a hit records a distance within [tMin, tMax] and the point of the ray there.
   */
  ghost predicate HitProtocol<M>(r: Ray, tMin: real, tMax: real, rec: HitRecord<M>, o: HitOutcome<M>)
  {
    (!o.hit ==> o.rec == rec) &&
    (o.hit ==> tMin <= o.rec.t <= tMax && o.rec.p == At(r, o.rec.t))
  }
}
