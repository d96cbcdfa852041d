// Spheres (sphere.h): the clamped constructor, the ray-sphere quadratic with the
// nearer root tried first, and the bounding box `center ± radius`.
module Spheres {
  import opened Vec
  import opened Intervals
  import opened Options
  import opened Hittable
  import opened Aabb

  datatype Sphere = Sphere(center: Point3, radius: real, mat: Material)

  /** The constructor stores `fmax(0, radius)`. */
  function MakeSphere(center: Point3, radius: real, mat: Material): (s: Sphere)
    ensures s.center == center && s.mat == mat
    ensures Valid(s)
    ensures 0.0 <= radius ==> s.radius == radius
    ensures radius < 0.0 ==> s.radius == 0.0
  {
    Sphere(center, if radius < 0.0 then 0.0 else radius, mat)
  }

  /** What the constructor guarantees of every sphere. */
  predicate Valid(s: Sphere) { 0.0 <= s.radius }

  /** The square root the hit test is given: exact on the non-negative reals. */
  ghost predicate IsSqrt(sq: real -> real) {
    forall d: real {:trigger sq(d)} :: 0.0 <= d ==> 0.0 <= sq(d) && sq(d) * sq(d) == d
  }

  /** The coefficients of `a t^2 - 2 h t + c == 0`, whose roots are where the ray meets the sphere. */
  datatype Quadratic = Quadratic(a: real, h: real, c: real)

  function Coefficients(s: Sphere, r: Ray): Quadratic {
    var oc := Sub(s.center, r.origin);
    Quadratic(LengthSquared(r.direction), Dot(r.direction, oc), LengthSquared(oc) - s.radius * s.radius)
  }

  function Discriminant(q: Quadratic): real { q.h * q.h - q.a * q.c }

  function NearRoot(q: Quadratic, sqrtd: real): real
    requires q.a != 0.0
  {
    (q.h - sqrtd) / q.a
  }

  function FarRoot(q: Quadratic, sqrtd: real): real
    requires q.a != 0.0
  {
    (q.h + sqrtd) / q.a
  }

  /** The point lies on the surface of the sphere. */
  predicate OnSurface(s: Sphere, p: Point3) {
    LengthSquared(Sub(p, s.center)) == s.radius * s.radius
  }

  /**
   * `(p - center) / radius`. For a zero radius the source divides by zero and the
   * normal is not a number; the model then uses the zero vector.
   */
  function OutwardNormal(s: Sphere, p: Point3): Vec3 {
    if s.radius == 0.0 then Zero else Scale(1.0 / s.radius, Sub(p, s.center))
  }

  /** The record filled in for a hit at parameter `t`. */
  function RecordAt(s: Sphere, r: Ray, t: real): (rec: HitRecord)
    ensures rec.t == t && rec.p == At(r, t) && rec.mat == s.mat
    ensures Dot(r.direction, rec.normal) <= 0.0
  {
    var p := At(r, t);
    HitRecord(t, p, FaceNormal(r, OutwardNormal(s, p)), s.mat)
  }

  /**
   * `sphere::hit`. `None` means that the source returns false and leaves the record
   * alone. A zero direction makes `a` zero; the source then divides by zero and every
   * candidate root is infinite or not a number, which no interval surrounds, so the
   * model answers `None` for it directly.
   */
  function Hit(s: Sphere, r: Ray, rayT: Interval, sq: real -> real): (res: Option<HitRecord>)
    ensures Discriminant(Coefficients(s, r)) < 0.0 ==> res.None?
    ensures res.Some? ==> Surrounds(rayT, res.value.t) && res.value == RecordAt(s, r, res.value.t)
    ensures res.Some? ==>
      var q := Coefficients(s, r);
      q.a != 0.0 && 0.0 <= Discriminant(q) &&
      (Surrounds(rayT, NearRoot(q, sq(Discriminant(q)))) ==>
         res.value.t == NearRoot(q, sq(Discriminant(q)))) &&
      (!Surrounds(rayT, NearRoot(q, sq(Discriminant(q)))) ==>
         res.value.t == FarRoot(q, sq(Discriminant(q))))
    ensures res.None? && Coefficients(s, r).a != 0.0 && 0.0 <= Discriminant(Coefficients(s, r)) ==>
      var q := Coefficients(s, r);
      !Surrounds(rayT, NearRoot(q, sq(Discriminant(q)))) && !Surrounds(rayT, FarRoot(q, sq(Discriminant(q))))
  {
    var q := Coefficients(s, r);
    var disc := Discriminant(q);
    if disc < 0.0 || q.a == 0.0 then None
    else
      var sqrtd := sq(disc);
      var root := (q.h - sqrtd) / q.a;
      if Surrounds(rayT, root) then Some(RecordAt(s, r, root))
      else
        var other := (q.h + sqrtd) / q.a;
        if Surrounds(rayT, other) then Some(RecordAt(s, r, other)) else None
  }

  /** `bounding_box`: the cube `center ± radius`. */
  function BoundingBox(s: Sphere): (box: Box)
    ensures Ordered(box)
    ensures Valid(s) ==>
      box.x == Interval(Fin(s.center.x - s.radius), Fin(s.center.x + s.radius)) &&
      box.y == Interval(Fin(s.center.y - s.radius), Fin(s.center.y + s.radius)) &&
      box.z == Interval(Fin(s.center.z - s.radius), Fin(s.center.z + s.radius))
  {
    var radiusVec := Vec3(s.radius, s.radius, s.radius);
    FromPoints(Sub(s.center, radiusVec), Add(s.center, radiusVec))
  }

  // ---------------------------------------------------------------------------
  // Geometry of the hit

  /** `|At(r, t) - center|^2 - radius^2` is the quadratic's left-hand side at `t`. */
  lemma SurfaceEquation(s: Sphere, r: Ray, t: real)
    ensures var q := Coefficients(s, r);
      LengthSquared(Sub(At(r, t), s.center)) - s.radius * s.radius == q.a * t * t - 2.0 * q.h * t + q.c
  {
  }

  /** A point of the ray on the surface is a root of the quadratic. */
  lemma SurfacePointSolves(s: Sphere, r: Ray, t: real)
    requires OnSurface(s, At(r, t))
    ensures var q := Coefficients(s, r);
      q.a * t * t - 2.0 * q.h * t + q.c == 0.0
  {
    SurfaceEquation(s, r, t);
  }

  /** Every `t` with `a t == h + e`, where `e^2` is the discriminant, is a root. */
  lemma IsRoot(q: Quadratic, e: real, t: real)
    requires q.a != 0.0 && e * e == Discriminant(q) && q.a * t == q.h + e
    ensures q.a * t * t - 2.0 * q.h * t + q.c == 0.0
  {
    assert q.a * (t * (e - q.h)) == (q.h + e) * (e - q.h);
    assert (q.h + e) * (e - q.h) == q.a * (-q.c);
    Cancel(q.a, t * (e - q.h), -q.c);
    assert q.a * t * t == (q.h + e) * t;
  }

  lemma DivMonotone(x: real, y: real, a: real)
    requires 0.0 < a && x <= y
    ensures x / a <= y / a
  {
    assert y / a - x / a == (y - x) / a;
    assert a * ((y - x) / a) == y - x;
  }

  /** With an exact square root the nearer root is never beyond the farther one. */
  lemma RootsOrdered(s: Sphere, r: Ray, sq: real -> real)
    requires IsSqrt(sq)
    requires Coefficients(s, r).a != 0.0 && 0.0 <= Discriminant(Coefficients(s, r))
    ensures var q := Coefficients(s, r);
      NearRoot(q, sq(Discriminant(q))) <= FarRoot(q, sq(Discriminant(q)))
  {
    var q := Coefficients(s, r);
    LengthSquaredNonNegative(r.direction);
    var sqrtd := sq(Discriminant(q));
    DivMonotone(q.h - sqrtd, q.h + sqrtd, q.a);
  }

  /** A root of the quadratic is a point of the surface. */
  lemma RootOnSurface(s: Sphere, r: Ray, e: real, t: real)
    requires var q := Coefficients(s, r);
      q.a != 0.0 && e * e == Discriminant(q) && q.a * t == q.h + e
    ensures OnSurface(s, At(r, t))
  {
    IsRoot(Coefficients(s, r), e, t);
    SurfaceEquation(s, r, t);
  }

  /** Both roots, with an exact square root of the discriminant, are points of the surface. */
  lemma RootsOnSurface(s: Sphere, r: Ray, sq: real -> real)
    requires IsSqrt(sq)
    requires Coefficients(s, r).a != 0.0 && 0.0 <= Discriminant(Coefficients(s, r))
    ensures var q := Coefficients(s, r);
      OnSurface(s, At(r, NearRoot(q, sq(Discriminant(q))))) &&
      OnSurface(s, At(r, FarRoot(q, sq(Discriminant(q)))))
  {
    var q := Coefficients(s, r);
    var sqrtd := sq(Discriminant(q));
    assert sqrtd * sqrtd == Discriminant(q);
    assert q.a * NearRoot(q, sqrtd) == q.h + -sqrtd;
    assert (-sqrtd) * (-sqrtd) == sqrtd * sqrtd;
    RootOnSurface(s, r, -sqrtd, NearRoot(q, sqrtd));
    assert q.a * FarRoot(q, sqrtd) == q.h + sqrtd;
    RootOnSurface(s, r, sqrtd, FarRoot(q, sqrtd));
  }

  /** Every hit the test reports lies on the sphere. */
  lemma HitOnSurface(s: Sphere, r: Ray, rayT: Interval, sq: real -> real)
    requires IsSqrt(sq) && Hit(s, r, rayT, sq).Some?
    ensures OnSurface(s, Hit(s, r, rayT, sq).value.p)
  {
    RootsOnSurface(s, r, sq);
  }

  /** Every hit the test reports lies in the sphere's bounding box. */
  lemma HitInsideBox(s: Sphere, r: Ray, rayT: Interval, sq: real -> real)
    requires IsSqrt(sq) && Valid(s) && Hit(s, r, rayT, sq).Some?
    ensures ContainsPoint(BoundingBox(s), Hit(s, r, rayT, sq).value.p)
  {
    var p := Hit(s, r, rayT, sq).value.p;
    HitOnSurface(s, r, rayT, sq);
    var v := Sub(p, s.center);
    ComponentsBounded(v.x, v.y, v.z, s.radius);
  }

  /** Each coordinate of a vector of length `m` lies in `[-m, m]`. */
  lemma ComponentsBounded(x: real, y: real, z: real, m: real)
    requires 0.0 <= m && x * x + y * y + z * z == m * m
    ensures -m <= x <= m && -m <= y <= m && -m <= z <= m
  {
    SquareNonNegative(x);
    SquareNonNegative(y);
    SquareNonNegative(z);
    SquareBound(x, m);
    SquareBound(y, m);
    SquareBound(z, m);
  }

  /**
   * Narrowing the upper end of the interval, as the scene list and the BVH do, keeps
   * a hit that lies below the new end and finds nothing otherwise.
   */
  lemma HitNarrowing(s: Sphere, r: Ray, lo: XReal, hi: XReal, hi2: XReal, sq: real -> real)
    requires IsSqrt(sq) && Le(hi2, hi)
    ensures var wide := Hit(s, r, Interval(lo, hi), sq);
      wide.Some? && Lt(Fin(wide.value.t), hi2) ==> Hit(s, r, Interval(lo, hi2), sq) == wide
    ensures var wide := Hit(s, r, Interval(lo, hi), sq);
      wide.None? || Le(hi2, Fin(wide.value.t)) ==> Hit(s, r, Interval(lo, hi2), sq).None?
  {
    var q := Coefficients(s, r);
    if q.a != 0.0 && 0.0 <= Discriminant(q) {
      RootsOrdered(s, r, sq);
    }
  }

  /** At a root, the discriminant is the square of `a t - h`. */
  lemma DiscriminantAtRoot(q: Quadratic, t: real)
    requires q.a * t * t - 2.0 * q.h * t + q.c == 0.0
    ensures Discriminant(q) == (q.a * t - q.h) * (q.a * t - q.h)
  {
    assert (q.a * t - q.h) * (q.a * t - q.h) == q.a * (q.a * t * t - 2.0 * q.h * t) + q.h * q.h;
  }

  /** Two numbers with the same square agree up to sign. */
  lemma SameSquare(u: real, w: real)
    requires u * u == w * w
    ensures u == w || u == -w
  {
    DifferenceOfSquares(u, w);
    if u - w != 0.0 {
      Cancel(u - w, u + w, 0.0);
    }
  }

  /** A quadratic with `a != 0` has no roots but the two the formula gives. */
  lemma OnlyTwoRoots(q: Quadratic, sqrtd: real, t: real)
    requires q.a != 0.0 && 0.0 <= sqrtd && sqrtd * sqrtd == Discriminant(q)
    requires q.a * t * t - 2.0 * q.h * t + q.c == 0.0
    ensures t == NearRoot(q, sqrtd) || t == FarRoot(q, sqrtd)
  {
    DiscriminantAtRoot(q, t);
    var u := q.a * t - q.h;
    SameSquare(u, sqrtd);
    assert t == (q.h + u) / q.a;
  }

  /** Every root of the quadratic with positive `a` is one of the two the formula gives. */
  lemma RootIsNearOrFar(q: Quadratic, sq: real -> real, t: real)
    requires IsSqrt(sq) && 0.0 < q.a && q.a * t * t - 2.0 * q.h * t + q.c == 0.0
    ensures 0.0 <= Discriminant(q)
    ensures t == NearRoot(q, sq(Discriminant(q))) || t == FarRoot(q, sq(Discriminant(q)))
  {
    DiscriminantAtRoot(q, t);
    SquareNonNegative(q.a * t - q.h);
    OnlyTwoRoots(q, sq(Discriminant(q)), t);
  }

  /**
   * The hit test finds the nearest point of the surface inside the interval: if the
   * ray meets the sphere at some `t` strictly inside `rayT`, a hit is reported at a
   * parameter no larger than `t`.
   */
  lemma HitIsNearest(s: Sphere, r: Ray, rayT: Interval, sq: real -> real, t: real)
    requires IsSqrt(sq) && 0.0 < LengthSquared(r.direction)
    requires Surrounds(rayT, t) && OnSurface(s, At(r, t))
    ensures Hit(s, r, rayT, sq).Some? && Hit(s, r, rayT, sq).value.t <= t
  {
    SurfacePointSolves(s, r, t);
    RootIsNearOrFar(Coefficients(s, r), sq, t);
    RootsOrdered(s, r, sq);
  }
}
