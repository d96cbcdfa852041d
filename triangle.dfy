// Triangles (triangle.h): the constructor's precomputed edges, normal and bounding
// box, and the Möller–Trumbore test with its sequence of early rejections.
module Triangles {
  import opened Vec
  import opened Intervals
  import opened Options
  import opened Hittable
  import opened Aabb

  datatype Triangle = Triangle(
    v0: Point3, v1: Point3, v2: Point3,
    edge1: Vec3, edge2: Vec3, normal: Vec3,
    mat: Material,
    bbox: Box)

  /** `std::min({a, b, c})`. */
  function Min3(a: real, b: real, c: real): (m: real)
    ensures m <= a && m <= b && m <= c
    ensures m == a || m == b || m == c
  {
    RealMin(RealMin(a, b), c)
  }

  /** `std::max({a, b, c})`. */
  function Max3(a: real, b: real, c: real): (m: real)
    ensures a <= m && b <= m && c <= m
    ensures m == a || m == b || m == c
  {
    RealMax(RealMax(a, b), c)
  }

  /** The box built from the per-axis minima and maxima of the three vertices. */
  function VertexBox(v0: Point3, v1: Point3, v2: Point3): (box: Box)
    ensures Ordered(box)
    ensures ContainsPoint(box, v0) && ContainsPoint(box, v1) && ContainsPoint(box, v2)
    ensures box.x == Interval(Fin(Min3(v0.x, v1.x, v2.x)), Fin(Max3(v0.x, v1.x, v2.x)))
    ensures box.y == Interval(Fin(Min3(v0.y, v1.y, v2.y)), Fin(Max3(v0.y, v1.y, v2.y)))
    ensures box.z == Interval(Fin(Min3(v0.z, v1.z, v2.z)), Fin(Max3(v0.z, v1.z, v2.z)))
  {
    FromPoints(
      Vec3(Min3(v0.x, v1.x, v2.x), Min3(v0.y, v1.y, v2.y), Min3(v0.z, v1.z, v2.z)),
      Vec3(Max3(v0.x, v1.x, v2.x), Max3(v0.y, v1.y, v2.y), Max3(v0.z, v1.z, v2.z)))
  }

  /**
   * The constructor. `unit` stands for `unit_vector`, whose definition is not part of
   * this model.
   */
  function MakeTriangle(v0: Point3, v1: Point3, v2: Point3, mat: Material, unit: Vec3 -> Vec3): (tri: Triangle)
    ensures Valid(tri)
    ensures tri.v0 == v0 && tri.v1 == v1 && tri.v2 == v2 && tri.mat == mat
    ensures tri.normal == unit(Cross(tri.edge1, tri.edge2))
  {
    var edge1 := Sub(v1, v0);
    var edge2 := Sub(v2, v0);
    Triangle(v0, v1, v2, edge1, edge2, unit(Cross(edge1, edge2)), mat, VertexBox(v0, v1, v2))
  }

  /** What the constructor guarantees of the cached fields. */
  predicate Valid(tri: Triangle) {
    tri.edge1 == Sub(tri.v1, tri.v0) && tri.edge2 == Sub(tri.v2, tri.v0) &&
    tri.bbox == VertexBox(tri.v0, tri.v1, tri.v2)
  }

  /** `bounding_box`: the box cached at construction. */
  function BoundingBox(tri: Triangle): (box: Box)
    ensures Valid(tri) ==> box == VertexBox(tri.v0, tri.v1, tri.v2)
  {
    tri.bbox
  }

  /** The tolerance below which the ray counts as parallel to the triangle's plane. */
  const Epsilon: real := 0.00000001

  /** The determinant `a = edge1 · (d × edge2)`. */
  function Determinant(tri: Triangle, r: Ray): real {
    Dot(tri.edge1, Cross(r.direction, tri.edge2))
  }

  predicate Parallel(tri: Triangle, r: Ray) {
    -Epsilon < Determinant(tri, r) < Epsilon
  }

  /** The first barycentric coordinate, `f (s · h)`. */
  function BaryU(tri: Triangle, r: Ray): real
    requires !Parallel(tri, r)
  {
    (1.0 / Determinant(tri, r)) * Dot(Sub(r.origin, tri.v0), Cross(r.direction, tri.edge2))
  }

  /** The second barycentric coordinate, `f (d · q)`. */
  function BaryV(tri: Triangle, r: Ray): real
    requires !Parallel(tri, r)
  {
    (1.0 / Determinant(tri, r)) * Dot(r.direction, Cross(Sub(r.origin, tri.v0), tri.edge1))
  }

  /** The ray parameter of the plane crossing, `f (edge2 · q)`. */
  function Distance(tri: Triangle, r: Ray): real
    requires !Parallel(tri, r)
  {
    (1.0 / Determinant(tri, r)) * Dot(tri.edge2, Cross(Sub(r.origin, tri.v0), tri.edge1))
  }

  /**
   * `triangle::hit`: reject a parallel ray, then a `u` outside `[0, 1]`, then a `v`
   * below zero or a `u + v` above one, then a distance outside the interval. Every
   * rejection returns `None`, which stands for "false, record untouched".
   */
  function Hit(tri: Triangle, r: Ray, rayT: Interval): (res: Option<HitRecord>)
    ensures Parallel(tri, r) ==> res.None?
    ensures res.Some? <==>
      !Parallel(tri, r) &&
      0.0 <= BaryU(tri, r) <= 1.0 && 0.0 <= BaryV(tri, r) && BaryU(tri, r) + BaryV(tri, r) <= 1.0 &&
      Surrounds(rayT, Distance(tri, r))
    ensures res.Some? ==>
      res.value == HitRecord(Distance(tri, r), At(r, Distance(tri, r)), FaceNormal(r, tri.normal), tri.mat)
  {
    if Parallel(tri, r) then None
    else
      var u := BaryU(tri, r);
      if u < 0.0 || u > 1.0 then None
      else
        var v := BaryV(tri, r);
        if v < 0.0 || u + v > 1.0 then None
        else
          var t := Distance(tri, r);
          if !Surrounds(rayT, t) then None
          else Some(HitRecord(t, At(r, t), FaceNormal(r, tri.normal), tri.mat))
  }

  // ---------------------------------------------------------------------------
  // Geometry of the test: it reports exactly the points of the triangle

  /** The point `v0 + u edge1 + v edge2` of the triangle's plane. */
  function PlanePoint(tri: Triangle, u: real, v: real): Point3 {
    Add(tri.v0, Add(Scale(u, tri.edge1), Scale(v, tri.edge2)))
  }

  /** Barycentric coordinates that lie in the closed triangle. */
  predicate InsideCoordinates(u: real, v: real) {
    0.0 <= u && 0.0 <= v && u + v <= 1.0
  }

  /**
   * One coordinate of Cramer's rule for `s + t d = u edge1 + v edge2`, multiplied
   * through by the determinant; the other two coordinates are the same identity with
   * the axes rotated.
   */
  lemma CramerCoordinate(a0: real, a1: real, a2: real, b0: real, b1: real, b2: real,
                         d0: real, d1: real, d2: real, s0: real, s1: real, s2: real)
    ensures (a0 * (d1 * b2 - d2 * b1) + a1 * (d2 * b0 - d0 * b2) + a2 * (d0 * b1 - d1 * b0)) * s0
          + (b0 * (s1 * a2 - s2 * a1) + b1 * (s2 * a0 - s0 * a2) + b2 * (s0 * a1 - s1 * a0)) * d0
         == (s0 * (d1 * b2 - d2 * b1) + s1 * (d2 * b0 - d0 * b2) + s2 * (d0 * b1 - d1 * b0)) * a0
          + (d0 * (s1 * a2 - s2 * a1) + d1 * (s2 * a0 - s0 * a2) + d2 * (s0 * a1 - s1 * a0)) * b0
  {
  }

  /** Dividing one coordinate of Cramer's rule by the determinant. */
  lemma DivideCoordinate(det: real, s: real, tn: real, d: real, un: real, e: real, vn: real, f: real)
    requires det != 0.0 && det * s + tn * d == un * e + vn * f
    ensures s + ((1.0 / det) * tn) * d == ((1.0 / det) * un) * e + ((1.0 / det) * vn) * f
  {
    var k := 1.0 / det;
    assert det * k == 1.0;
    assert det * ((k * tn) * d) == (det * k) * tn * d;
    assert det * ((k * un) * e) == (det * k) * un * e;
    assert det * ((k * vn) * f) == (det * k) * vn * f;
    assert det * (s + (k * tn) * d) == det * s + det * ((k * tn) * d);
    assert det * ((k * un) * e + (k * vn) * f) == det * ((k * un) * e) + det * ((k * vn) * f);
    Cancel(det, s + (k * tn) * d, (k * un) * e + (k * vn) * f);
  }

  /** The x coordinate of `CrossingIsPlanePoint`. */
  lemma CrossingX(tri: Triangle, r: Ray)
    requires !Parallel(tri, r)
    ensures At(r, Distance(tri, r)).x == PlanePoint(tri, BaryU(tri, r), BaryV(tri, r)).x
  {
    var s := Sub(r.origin, tri.v0);
    var e1, e2, d := tri.edge1, tri.edge2, r.direction;
    CramerCoordinate(e1.x, e1.y, e1.z, e2.x, e2.y, e2.z, d.x, d.y, d.z, s.x, s.y, s.z);
    DivideCoordinate(Determinant(tri, r), s.x, Dot(e2, Cross(s, e1)), d.x, Dot(s, Cross(d, e2)), e1.x, Dot(d, Cross(s, e1)), e2.x);
  }

  /** The y coordinate of `CrossingIsPlanePoint`. */
  lemma CrossingY(tri: Triangle, r: Ray)
    requires !Parallel(tri, r)
    ensures At(r, Distance(tri, r)).y == PlanePoint(tri, BaryU(tri, r), BaryV(tri, r)).y
  {
    var s := Sub(r.origin, tri.v0);
    var e1, e2, d := tri.edge1, tri.edge2, r.direction;
    CramerCoordinate(e1.y, e1.z, e1.x, e2.y, e2.z, e2.x, d.y, d.z, d.x, s.y, s.z, s.x);
    DivideCoordinate(Determinant(tri, r), s.y, Dot(e2, Cross(s, e1)), d.y, Dot(s, Cross(d, e2)), e1.y, Dot(d, Cross(s, e1)), e2.y);
  }

  /** The z coordinate of `CrossingIsPlanePoint`. */
  lemma CrossingZ(tri: Triangle, r: Ray)
    requires !Parallel(tri, r)
    ensures At(r, Distance(tri, r)).z == PlanePoint(tri, BaryU(tri, r), BaryV(tri, r)).z
  {
    var s := Sub(r.origin, tri.v0);
    var e1, e2, d := tri.edge1, tri.edge2, r.direction;
    CramerCoordinate(e1.z, e1.x, e1.y, e2.z, e2.x, e2.y, d.z, d.x, d.y, s.z, s.x, s.y);
    DivideCoordinate(Determinant(tri, r), s.z, Dot(e2, Cross(s, e1)), d.z, Dot(s, Cross(d, e2)), e1.z, Dot(d, Cross(s, e1)), e2.z);
  }

  /** The ray's point at the computed distance is the plane point with the computed coordinates. */
  lemma CrossingIsPlanePoint(tri: Triangle, r: Ray)
    requires !Parallel(tri, r)
    ensures At(r, Distance(tri, r)) == PlanePoint(tri, BaryU(tri, r), BaryV(tri, r))
  {
    CrossingX(tri, r);
    CrossingY(tri, r);
    CrossingZ(tri, r);
  }

  /** The reported hit is the point of the plane with the computed barycentric coordinates. */
  lemma HitPointIsPlanePoint(tri: Triangle, r: Ray, rayT: Interval)
    requires Hit(tri, r, rayT).Some?
    ensures Hit(tri, r, rayT).value.p == PlanePoint(tri, BaryU(tri, r), BaryV(tri, r))
    ensures InsideCoordinates(BaryU(tri, r), BaryV(tri, r))
  {
    CrossingIsPlanePoint(tri, r);
  }

  /** One coordinate of `v0 + u edge1 + v edge2`. */
  function Affine(a: real, e: real, f: real, u: real, v: real): real { a + (u * e + v * f) }

  lemma PlanePointComponents(v0: Point3, e1: Vec3, e2: Vec3, u: real, v: real)
    ensures Add(v0, Add(Scale(u, e1), Scale(v, e2)))
         == Vec3(Affine(v0.x, e1.x, e2.x, u, v), Affine(v0.y, e1.y, e2.y, u, v), Affine(v0.z, e1.z, e2.z, u, v))
  {
  }

  /**
   * A convex combination of three numbers, written as `a + u e + v f` with the edges
   * `e = b - a` and `f = c - a`, lies between their minimum and maximum.
   */
  lemma ConvexCoordinate(a: real, b: real, c: real, e: real, f: real, u: real, v: real)
    requires e == b - a && f == c - a
    requires InsideCoordinates(u, v)
    ensures IntervalHolds(Interval(Fin(Min3(a, b, c)), Fin(Max3(a, b, c))), Affine(a, e, f, u, v))
  {
    var w := 1.0 - u - v;
    var lo := Min3(a, b, c);
    var hi := Max3(a, b, c);
    var p := Affine(a, e, f, u, v);
    assert p - lo == w * (a - lo) + u * (b - lo) + v * (c - lo);
    NonNegativeProduct(w, a - lo);
    NonNegativeProduct(u, b - lo);
    NonNegativeProduct(v, c - lo);
    assert hi - p == w * (hi - a) + u * (hi - b) + v * (hi - c);
    NonNegativeProduct(w, hi - a);
    NonNegativeProduct(u, hi - b);
    NonNegativeProduct(v, hi - c);
  }

  /** The convex combinations of three vertices lie in their box. */
  lemma ConvexPointInsideVertexBox(v0: Point3, v1: Point3, v2: Point3, e1: Vec3, e2: Vec3, u: real, v: real)
    requires e1 == Sub(v1, v0) && e2 == Sub(v2, v0)
    requires InsideCoordinates(u, v)
    ensures ContainsPoint(VertexBox(v0, v1, v2), Add(v0, Add(Scale(u, e1), Scale(v, e2))))
  {
    PlanePointComponents(v0, e1, e2, u, v);
    ConvexCoordinate(v0.x, v1.x, v2.x, e1.x, e2.x, u, v);
    ConvexCoordinate(v0.y, v1.y, v2.y, e1.y, e2.y, u, v);
    ConvexCoordinate(v0.z, v1.z, v2.z, e1.z, e2.z, u, v);
  }

  /** The points of the closed triangle lie in its bounding box. */
  lemma PlanePointInsideBox(tri: Triangle, u: real, v: real)
    requires Valid(tri) && InsideCoordinates(u, v)
    ensures ContainsPoint(BoundingBox(tri), PlanePoint(tri, u, v))
  {
    ConvexPointInsideVertexBox(tri.v0, tri.v1, tri.v2, tri.edge1, tri.edge2, u, v);
  }

  /** Every hit the test reports lies in the triangle's bounding box. */
  lemma HitInsideBox(tri: Triangle, r: Ray, rayT: Interval)
    requires Valid(tri) && Hit(tri, r, rayT).Some?
    ensures ContainsPoint(BoundingBox(tri), Hit(tri, r, rayT).value.p)
  {
    HitPointIsPlanePoint(tri, r, rayT);
    PlanePointInsideBox(tri, BaryU(tri, r), BaryV(tri, r));
  }

  /**
   * The numerators of the three coordinates for an origin offset
   * `s = u edge1 + v edge2 - t d` are `u`, `v` and `t` times the determinant.
   */
  lemma NumeratorsAtPlanePoint(e1: Vec3, e2: Vec3, d: Vec3, s: Vec3, u: real, v: real, t: real)
    requires s == Sub(Add(Scale(u, e1), Scale(v, e2)), Scale(t, d))
    ensures Dot(s, Cross(d, e2)) == u * Dot(e1, Cross(d, e2))
    ensures Dot(d, Cross(s, e1)) == v * Dot(e1, Cross(d, e2))
    ensures Dot(e2, Cross(s, e1)) == t * Dot(e1, Cross(d, e2))
  {
    var det := Dot(e1, Cross(d, e2));
    assert Dot(s, Cross(d, e2)) == u * det by {
      DotCombination(s, e1, e2, d, u, v, t, Cross(d, e2));
      CrossOrthogonal(d, e2);
    }
    assert Dot(d, Cross(s, e1)) == v * det by {
      TripleCyclic(d, s, e1);
      DotCombination(s, e1, e2, d, u, v, t, Cross(e1, d));
      CrossOrthogonal(e1, d);
      TripleCyclic(e2, e1, d);
    }
    assert Dot(e2, Cross(s, e1)) == t * det by {
      TripleCyclic(e2, s, e1);
      DotCombination(s, e1, e2, d, u, v, t, Cross(e1, e2));
      CrossOrthogonal(e1, e2);
      TripleCyclic(d, e1, e2);
      TripleSwap(e1, e2, d);
    }
  }

  /** A numerator equal to `x * det` gives the coordinate `x`. */
  lemma DivideOut(det: real, n: real, x: real)
    requires det != 0.0 && n == x * det
    ensures (1.0 / det) * n == x
  {
  }

  /**
   * The converse of `HitPointIsPlanePoint`: when the ray is not parallel and its point
   * at some `t` strictly inside `rayT` lies in the closed triangle, the test reports a
   * hit at exactly that `t`, with those barycentric coordinates.
   */
  lemma PlanePointIsHit(tri: Triangle, r: Ray, rayT: Interval, u: real, v: real, t: real)
    requires !Parallel(tri, r) && InsideCoordinates(u, v) && Surrounds(rayT, t)
    requires At(r, t) == PlanePoint(tri, u, v)
    ensures BaryU(tri, r) == u && BaryV(tri, r) == v && Distance(tri, r) == t
    ensures Hit(tri, r, rayT) == Some(HitRecord(t, At(r, t), FaceNormal(r, tri.normal), tri.mat))
  {
    var e1, e2, d := tri.edge1, tri.edge2, r.direction;
    var s := Sub(r.origin, tri.v0);
    assert s == Sub(Add(Scale(u, e1), Scale(v, e2)), Scale(t, d));
    NumeratorsAtPlanePoint(e1, e2, d, s, u, v, t);
    var det := Determinant(tri, r);
    DivideOut(det, Dot(s, Cross(d, e2)), u);
    DivideOut(det, Dot(d, Cross(s, e1)), v);
    DivideOut(det, Dot(e2, Cross(s, e1)), t);
  }
}
