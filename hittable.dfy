// The hit record shared by every intersectable object. The header that defines it in
// the repository (hittable.h) is not part of this model; `set_face_normal` is the
// conventional orientation of the normal against the incoming ray.
module Hittable {
  import opened Vec
  import opened Intervals

  /**
   * The closed set of materials. It lives here rather than with the scattering code
   * because a hit record refers to the material of the surface it hit.
   * `Plain` is the base `material`, whose `scatter` always fails.
   */
  datatype Material = Plain | Lambertian(albedo: Color) | Metal(albedo: Color)

  datatype HitRecord = HitRecord(t: real, p: Point3, normal: Vec3, mat: Material)

  /** The interval `ray_color` searches: from just off the surface to infinity. */
  const Visible: Interval := Interval(Fin(0.001), PosInf)

  /** The stored normal always points against the ray. */
  function FaceNormal(r: Ray, outwardNormal: Vec3): (n: Vec3)
    ensures n == outwardNormal || n == Neg(outwardNormal)
    ensures Dot(r.direction, n) <= 0.0
  {
    DotNeg(r.direction, outwardNormal);
    if Dot(r.direction, outwardNormal) < 0.0 then outwardNormal else Neg(outwardNormal)
  }
}
