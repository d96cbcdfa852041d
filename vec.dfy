// Vector, point, colour and ray arithmetic. The headers that define these in the
// repository (vec3.h, ray.h, color.h) are not part of this model: the definitions
// below are the conventional ones the core relies on, over exact reals.
module Vec {

  datatype Vec3 = Vec3(x: real, y: real, z: real)

  type Point3 = Vec3
  type Color = Vec3

  const Zero: Vec3 := Vec3(0.0, 0.0, 0.0)

  function Add(a: Vec3, b: Vec3): Vec3 { Vec3(a.x + b.x, a.y + b.y, a.z + b.z) }

  function Sub(a: Vec3, b: Vec3): Vec3 { Vec3(a.x - b.x, a.y - b.y, a.z - b.z) }

  function Neg(a: Vec3): Vec3 { Vec3(-a.x, -a.y, -a.z) }

  function Scale(k: real, a: Vec3): Vec3 { Vec3(k * a.x, k * a.y, k * a.z) }

  /** Component-wise product, as colours are multiplied by attenuations. */
  function Mul(a: Vec3, b: Vec3): Vec3 { Vec3(a.x * b.x, a.y * b.y, a.z * b.z) }

  function Dot(a: Vec3, b: Vec3): real { a.x * b.x + a.y * b.y + a.z * b.z }

  function Cross(a: Vec3, b: Vec3): Vec3 {
    Vec3(a.y * b.z - a.z * b.y, a.z * b.x - a.x * b.z, a.x * b.y - a.y * b.x)
  }

  function LengthSquared(a: Vec3): real { Dot(a, a) }

  function Abs(v: real): real { if v < 0.0 then -v else v }

  /** The tolerance of `near_zero`. */
  const NearZeroEpsilon: real := 0.00000001

  /** True when every component is smaller than the tolerance in magnitude. */
  predicate NearZero(a: Vec3) {
    Abs(a.x) < NearZeroEpsilon && Abs(a.y) < NearZeroEpsilon && Abs(a.z) < NearZeroEpsilon
  }

  /** Mirror reflection of `v` about the normal `n`. */
  function Reflect(v: Vec3, n: Vec3): Vec3 { Sub(v, Scale(2.0 * Dot(v, n), n)) }

  datatype Ray = Ray(origin: Point3, direction: Vec3)

  /** The point at parameter `t` along the ray. */
  function At(r: Ray, t: real): Point3 { Add(r.origin, Scale(t, r.direction)) }

  lemma AtComponents(r: Ray, t: real)
    ensures At(r, t) == Vec3(r.origin.x + t * r.direction.x, r.origin.y + t * r.direction.y, r.origin.z + t * r.direction.z)
  {
    assert Scale(t, r.direction) == Vec3(t * r.direction.x, t * r.direction.y, t * r.direction.z);
  }

  /** The slab test divides by every direction component. */
  predicate NonZeroDirection(r: Ray) {
    r.direction.x != 0.0 && r.direction.y != 0.0 && r.direction.z != 0.0
  }

  lemma LengthSquaredNonNegative(a: Vec3)
    ensures 0.0 <= LengthSquared(a)
  {
    SquareNonNegative(a.x);
    SquareNonNegative(a.y);
    SquareNonNegative(a.z);
  }

  lemma SquareNonNegative(v: real)
    ensures 0.0 <= v * v
  {
    if v < 0.0 {
      assert v * v == (-v) * (-v);
    }
  }

  /** A square bounded by another square bounds the value: |x| <= m for m >= 0. */
  lemma SquareBound(x: real, m: real)
    requires 0.0 <= m && x * x <= m * m
    ensures -m <= x <= m
  {
    if x < 0.0 {
      assert (-x) * (-x) == x * x;
      NonNegativeSquareBound(-x, m);
    } else {
      NonNegativeSquareBound(x, m);
    }
  }

  lemma NonNegativeSquareBound(x: real, m: real)
    requires 0.0 <= x && 0.0 <= m && x * x <= m * m
    ensures x <= m
  {
    if x > m {
      DifferenceOfSquares(x, m);
      ProductPositive(x - m, x + m);
    }
  }

  lemma DifferenceOfSquares(a: real, b: real)
    ensures a * a - b * b == (a - b) * (a + b)
  {
  }

  lemma ProductPositive(a: real, b: real)
    requires 0.0 < a && 0.0 < b
    ensures 0.0 < a * b
  {
  }

  lemma NonNegativeProduct(a: real, b: real)
    requires 0.0 <= a && 0.0 <= b
    ensures 0.0 <= a * b
  {
  }

  /** Cancellation of a non-zero factor. */
  lemma Cancel(a: real, x: real, y: real)
    requires a != 0.0 && a * x == a * y
    ensures x == y
  {
    assert x == (a * x) / a;
    assert y == (a * y) / a;
  }

  lemma DotNeg(a: Vec3, b: Vec3)
    ensures Dot(a, Neg(b)) == -Dot(a, b)
  {
  }

  /** The scalar triple product is invariant under cyclic rotation. */
  lemma TripleCyclic(a: Vec3, b: Vec3, c: Vec3)
    ensures Dot(a, Cross(b, c)) == Dot(b, Cross(c, a))
  {
  }

  /** Swapping the two factors of the cross product negates the triple product. */
  lemma TripleSwap(a: Vec3, b: Vec3, c: Vec3)
    ensures Dot(a, Cross(b, c)) == -Dot(a, Cross(c, b))
  {
  }

  /** A cross product is orthogonal to both of its factors. */
  lemma CrossOrthogonal(a: Vec3, b: Vec3)
    ensures Dot(a, Cross(a, b)) == 0.0 && Dot(b, Cross(a, b)) == 0.0
  {
  }

  /** The dot product is linear in its first argument. */
  lemma DotCombination(s: Vec3, a: Vec3, b: Vec3, c: Vec3, u: real, v: real, t: real, w: Vec3)
    requires s == Sub(Add(Scale(u, a), Scale(v, b)), Scale(t, c))
    ensures Dot(s, w) == u * Dot(a, w) + v * Dot(b, w) - t * Dot(c, w)
  {
  }
}
