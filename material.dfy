// Scattering at a surface (material.h): the base material absorbs every ray, a
// Lambertian surface scatters about its normal by a random unit vector, and a metal
// mirrors the incoming direction. The random unit vector is a parameter.
module Materials {
  import opened Vec
  import opened Options
  import opened Hittable

  /** What a successful `scatter` writes into its two out-parameters. */
  datatype Scattered = Scattered(attenuation: Color, ray: Ray)

  /**
   * The outcome of `scatter` for the material `mat` hit at `rec`, where `randomUnit`
   * is the vector `random_unit_vector()` returns; `None` is `false`.
   */
  function ScatterOf(mat: Material, rIn: Ray, rec: HitRecord, randomUnit: Vec3): (res: Option<Scattered>)
    ensures res.None? <==> mat.Plain?
    ensures res.Some? ==> res.value.attenuation == mat.albedo && res.value.ray.origin == rec.p
    ensures mat.Lambertian? ==>
      res.value.ray.direction ==
        if NearZero(Add(rec.normal, randomUnit)) then rec.normal else Add(rec.normal, randomUnit)
    ensures mat.Lambertian? && !NearZero(rec.normal) ==> !NearZero(res.value.ray.direction)
    ensures mat.Metal? ==> res.value.ray.direction == Reflect(rIn.direction, rec.normal)
  {
    match mat
    case Plain => None
    case Lambertian(albedo) =>
      var direction := Add(rec.normal, randomUnit);
      Some(Scattered(albedo, Ray(rec.p, if NearZero(direction) then rec.normal else direction)))
    case Metal(albedo) => Some(Scattered(albedo, Ray(rec.p, Reflect(rIn.direction, rec.normal))))
  }

  /**
   * The virtual `scatter`, with the out-parameters written back: on `false` they keep
   * the values they came in with.
   */
  method Scatter(mat: Material, rIn: Ray, rec: HitRecord, randomUnit: Vec3, attenuation0: Color, scattered0: Ray)
    returns (ok: bool, attenuation: Color, scattered: Ray)
    ensures ok <==> ScatterOf(mat, rIn, rec, randomUnit).Some?
    ensures ok ==> Scattered(attenuation, scattered) == ScatterOf(mat, rIn, rec, randomUnit).value
    ensures !ok ==> attenuation == attenuation0 && scattered == scattered0
  {
    attenuation, scattered := attenuation0, scattered0;
    match mat
    case Plain =>
      ok := false;
    case Lambertian(albedo) =>
      var scatterDirection := Add(rec.normal, randomUnit);
      if NearZero(scatterDirection) {
        scatterDirection := rec.normal;
      }
      scattered := Ray(rec.p, scatterDirection);
      attenuation := albedo;
      ok := true;
    case Metal(albedo) =>
      var reflected := Reflect(rIn.direction, rec.normal);
      scattered := Ray(rec.p, reflected);
      attenuation := albedo;
      ok := true;
  }

  /**
   * About a unit normal, reflection keeps the length of the direction and negates its
   * component along the normal.
   */
  lemma ReflectIsMirror(v: Vec3, n: Vec3)
    requires LengthSquared(n) == 1.0
    ensures Dot(Reflect(v, n), n) == -Dot(v, n)
    ensures LengthSquared(Reflect(v, n)) == LengthSquared(v)
  {
    var d := Dot(v, n);
    var r := Reflect(v, n);
    assert r == Sub(v, Scale(2.0 * d, n));
    assert Dot(r, n) == d - 2.0 * d * LengthSquared(n) by {
      assert Dot(r, n) == Dot(v, n) - 2.0 * d * Dot(n, n);
    }
    assert LengthSquared(r) == LengthSquared(v) - 4.0 * d * d + 4.0 * d * d * LengthSquared(n) by {
      assert LengthSquared(r) == Dot(v, v) - 4.0 * d * Dot(v, n) + 4.0 * d * d * Dot(n, n);
    }
  }

  /**
   * A metal hit by a ray arriving against a unit normal (as `set_face_normal` orients
   * it) sends the scattered ray away from the surface, at the same speed.
   */
  lemma MetalLeavesSurface(albedo: Color, rIn: Ray, rec: HitRecord)
    requires LengthSquared(rec.normal) == 1.0 && Dot(rIn.direction, rec.normal) <= 0.0
    ensures var s := ScatterOf(Metal(albedo), rIn, rec, Zero).value.ray.direction;
      Dot(s, rec.normal) >= 0.0 && LengthSquared(s) == LengthSquared(rIn.direction)
  {
    ReflectIsMirror(rIn.direction, rec.normal);
  }
}
