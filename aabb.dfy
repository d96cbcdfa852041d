// Axis-aligned bounding boxes (aabb.h): three intervals, the corner constructor, the
// union of two boxes, the longest-axis choice, the centre and the slab test.
module Aabb {
  import opened Vec
  import opened Intervals

  datatype Box = Box(x: Interval, y: Interval, z: Interval)

  /** `aabb()`: every axis holds the empty interval. */
  const EmptyBox: Box := Box(Empty, Empty, Empty)

  function RealMin(a: real, b: real): real { if a <= b then a else b }

  function RealMax(a: real, b: real): real { if a <= b then b else a }

  /** The interval spanned by two coordinates, whichever is given first. */
  function CornerInterval(p: real, q: real): (i: Interval)
    ensures i.min.Fin? && i.max.Fin? && i.min.v <= i.max.v
    ensures {i.min.v, i.max.v} == {p, q}
  {
    if p <= q then Interval(Fin(p), Fin(q)) else Interval(Fin(q), Fin(p))
  }

  predicate IntervalHolds(i: Interval, v: real) { Le(i.min, Fin(v)) && Le(Fin(v), i.max) }

  /** The point lies in the closed box. */
  predicate ContainsPoint(box: Box, p: Point3) {
    IntervalHolds(box.x, p.x) && IntervalHolds(box.y, p.y) && IntervalHolds(box.z, p.z)
  }

  /** `aabb(a, b)`: the smallest box holding both corners, with `min <= max` on every axis. */
  function FromPoints(a: Point3, b: Point3): (box: Box)
    ensures Ordered(box)
    ensures ContainsPoint(box, a) && ContainsPoint(box, b)
    ensures box.x == Interval(Fin(RealMin(a.x, b.x)), Fin(RealMax(a.x, b.x)))
    ensures box.y == Interval(Fin(RealMin(a.y, b.y)), Fin(RealMax(a.y, b.y)))
    ensures box.z == Interval(Fin(RealMin(a.z, b.z)), Fin(RealMax(a.z, b.z)))
  {
    Box(CornerInterval(a.x, b.x), CornerInterval(a.y, b.y), CornerInterval(a.z, b.z))
  }

  /** Finite bounds with `min <= max` on every axis. */
  predicate Ordered(box: Box) {
    && box.x.min.Fin? && box.x.max.Fin? && box.x.min.v <= box.x.max.v
    && box.y.min.Fin? && box.y.max.Fin? && box.y.min.v <= box.y.max.v
    && box.z.min.Fin? && box.z.max.Fin? && box.z.min.v <= box.z.max.v
  }

  lemma FromPointsSymmetric(a: Point3, b: Point3)
    ensures FromPoints(a, b) == FromPoints(b, a)
  {
  }

  /** `axis_interval(n)`: 1 is y, 2 is z, and every other argument is x. */
  function AxisInterval(box: Box, n: int): (i: Interval)
    ensures i == (if n == 1 then box.y else if n == 2 then box.z else box.x)
  {
    if n == 1 then box.y else if n == 2 then box.z else box.x
  }

  predicate IntervalContains(outer: Interval, inner: Interval) {
    Le(outer.min, inner.min) && Le(inner.max, outer.max)
  }

  /** Every axis of `outer` holds the corresponding axis of `inner`. */
  predicate Contains(outer: Box, inner: Box) {
    IntervalContains(outer.x, inner.x) && IntervalContains(outer.y, inner.y) && IntervalContains(outer.z, inner.z)
  }

  function IntervalUnion(a: Interval, b: Interval): Interval {
    Interval(Min(a.min, b.min), Max(a.max, b.max))
  }

  /** `surrounding_box`: the per-axis union of two boxes, holding both. */
  function Union(a: Box, b: Box): (u: Box)
    ensures Contains(u, a) && Contains(u, b)
  {
    Box(IntervalUnion(a.x, b.x), IntervalUnion(a.y, b.y), IntervalUnion(a.z, b.z))
  }

  lemma UnionCommutative(a: Box, b: Box)
    ensures Union(a, b) == Union(b, a)
  {
  }

  lemma UnionAssociative(a: Box, b: Box, c: Box)
    ensures Union(Union(a, b), c) == Union(a, Union(b, c))
  {
  }

  /** The empty box is the identity of the union, on either side. */
  lemma UnionEmpty(b: Box)
    ensures Union(EmptyBox, b) == b && Union(b, EmptyBox) == b
  {
  }

  /** The union is the least box holding both arguments. */
  lemma UnionLeast(a: Box, b: Box, c: Box)
    requires Contains(c, a) && Contains(c, b)
    ensures Contains(c, Union(a, b))
  {
  }

  lemma ContainsTransitive(a: Box, b: Box, c: Box)
    requires Contains(a, b) && Contains(b, c)
    ensures Contains(a, c)
  {
  }

  /** Containment is a partial order: two boxes that hold each other are equal. */
  lemma ContainsAntisymmetric(a: Box, b: Box)
    requires Contains(a, b) && Contains(b, a)
    ensures a == b
  {
    LeAntisymmetric(a.x.min, b.x.min);
    LeAntisymmetric(a.x.max, b.x.max);
    LeAntisymmetric(a.y.min, b.y.min);
    LeAntisymmetric(a.y.max, b.y.max);
    LeAntisymmetric(a.z.min, b.z.min);
    LeAntisymmetric(a.z.max, b.z.max);
  }

  /** Every box holds the empty box. */
  lemma ContainsEmpty(b: Box)
    ensures Contains(b, EmptyBox)
  {
  }

  /** A point of a box is a point of every box that holds it. */
  lemma ContainsPointWithin(outer: Box, inner: Box, p: Point3)
    requires Contains(outer, inner) && ContainsPoint(inner, p)
    ensures ContainsPoint(outer, p)
  {
    LeTransitive(outer.x.min, inner.x.min, Fin(p.x));
    LeTransitive(Fin(p.x), inner.x.max, outer.x.max);
    LeTransitive(outer.y.min, inner.y.min, Fin(p.y));
    LeTransitive(Fin(p.y), inner.y.max, outer.y.max);
    LeTransitive(outer.z.min, inner.z.min, Fin(p.z));
    LeTransitive(Fin(p.z), inner.z.max, outer.z.max);
  }

  function AxisSize(box: Box, n: int): XReal { Size(AxisInterval(box, n)) }

  /**
   * `longest_axis`: an axis of largest size and, among the axes of largest size, the one
   * with the highest index.
   */
  function LongestAxis(box: Box): (n: int)
    ensures 0 <= n <= 2
    ensures forall k :: 0 <= k <= 2 ==> Le(AxisSize(box, k), AxisSize(box, n))
    ensures forall k :: n < k <= 2 ==> Lt(AxisSize(box, k), AxisSize(box, n))
  {
    if Lt(Size(box.y), Size(box.x)) then
      (if Lt(Size(box.z), Size(box.x)) then 0 else 2)
    else
      (if Lt(Size(box.z), Size(box.y)) then 1 else 2)
  }

  /** The two conditions of `LongestAxis` determine the axis uniquely. */
  lemma LongestAxisUnique(box: Box, n: int)
    requires 0 <= n <= 2
    requires forall k :: 0 <= k <= 2 ==> Le(AxisSize(box, k), AxisSize(box, n))
    requires forall k :: n < k <= 2 ==> Lt(AxisSize(box, k), AxisSize(box, n))
    ensures n == LongestAxis(box)
  {
    var m := LongestAxis(box);
    assert Le(AxisSize(box, m), AxisSize(box, n));
    assert Le(AxisSize(box, n), AxisSize(box, m));
    assert !(m < n) && !(n < m);
  }

  predicate Finite(box: Box) {
    box.x.min.Fin? && box.x.max.Fin? && box.y.min.Fin? && box.y.max.Fin? && box.z.min.Fin? && box.z.max.Fin?
  }

  function Midpoint(i: Interval): (c: real)
    requires i.min.Fin? && i.max.Fin?
    ensures c - i.min.v == i.max.v - c
    ensures i.min.v <= i.max.v ==> i.min.v <= c <= i.max.v
  {
    (i.min.v + i.max.v) * 0.5
  }

  /** `center`: equidistant from both bounds on every axis, so inside an ordered box. */
  function Center(box: Box): (c: Point3)
    requires Finite(box)
    ensures c.x - box.x.min.v == box.x.max.v - c.x
    ensures c.y - box.y.min.v == box.y.max.v - c.y
    ensures c.z - box.z.min.v == box.z.max.v - c.z
    ensures Ordered(box) ==> ContainsPoint(box, c)
  {
    Vec3(Midpoint(box.x), Midpoint(box.y), Midpoint(box.z))
  }

  // ---------------------------------------------------------------------------
  // The slab test

  /** `(bound - origin) * invD`, where an infinite bound gives a signed infinity. */
  function Along(bound: XReal, origin: real, invD: real): XReal
    requires invD != 0.0
  {
    match bound
    case Fin(b) => Fin((b - origin) * invD)
    case PosInf => if invD > 0.0 then PosInf else NegInf
    case NegInf => if invD > 0.0 then NegInf else PosInf
  }

  /** The entry and exit parameters of one axis' slab, swapped when the inverse direction is negative. */
  function SlabTimes(i: Interval, origin: real, dir: real): (XReal, XReal)
    requires dir != 0.0
  {
    var invD := 1.0 / dir;
    var t0 := Along(i.min, origin, invD);
    var t1 := Along(i.max, origin, invD);
    if invD < 0.0 then (t1, t0) else (t0, t1)
  }

  /**
   * The window that remains of `rayT` after intersecting it with the three slabs; it
   * only shrinks from `rayT`.
   */
  function Window(box: Box, r: Ray, rayT: Interval): (w: (XReal, XReal))
    requires NonZeroDirection(r)
    ensures Le(rayT.min, w.0) && Le(w.1, rayT.max)
  {
    Clip(SlabTimes(box.x, r.origin.x, r.direction.x), SlabTimes(box.y, r.origin.y, r.direction.y),
         SlabTimes(box.z, r.origin.z, r.direction.z), rayT)
  }

  /** Narrowing `rayT` by the x, then the y, then the z slab. */
  function Clip(x: (XReal, XReal), y: (XReal, XReal), z: (XReal, XReal), rayT: Interval): (w: (XReal, XReal))
    ensures Le(rayT.min, w.0) && Le(w.1, rayT.max)
  {
    (Max(z.0, Max(y.0, Max(x.0, rayT.min))), Min(z.1, Min(y.1, Min(x.1, rayT.max))))
  }

  /** A parameter inside every slab and strictly inside `rayT` stays inside the window. */
  lemma ClipHolds(x: (XReal, XReal), y: (XReal, XReal), z: (XReal, XReal), rayT: Interval, t: real)
    requires Le(x.0, Fin(t)) && Le(Fin(t), x.1) && Le(y.0, Fin(t)) && Le(Fin(t), y.1)
    requires Le(z.0, Fin(t)) && Le(Fin(t), z.1) && Surrounds(rayT, t)
    ensures Le(Clip(x, y, z, rayT).0, Fin(t)) && Le(Fin(t), Clip(x, y, z, rayT).1)
  {
  }

  /**
   * `hit`, axis by axis with the early exits of the source: it fails as soon as the
   * running `tmin >= tmax`, and otherwise reports `tmin < tmax` after the z axis. The
   * result is exactly whether the final window is non-empty in the strict sense.
   */
  function Hit(box: Box, r: Ray, rayT: Interval): (b: bool)
    requires NonZeroDirection(r)
    ensures b == Lt(Window(box, r, rayT).0, Window(box, r, rayT).1)
  {
    var (x0, x1) := SlabTimes(box.x, r.origin.x, r.direction.x);
    var xmin := Max(x0, rayT.min);
    var xmax := Min(x1, rayT.max);
    if Le(xmax, xmin) then false
    else
      var (y0, y1) := SlabTimes(box.y, r.origin.y, r.direction.y);
      var ymin := Max(y0, xmin);
      var ymax := Min(y1, xmax);
      if Le(ymax, ymin) then false
      else
        var (z0, z1) := SlabTimes(box.z, r.origin.z, r.direction.z);
        Lt(Max(z0, ymin), Min(z1, ymax))
  }

  /**
   * The slab test with closed comparisons: it keeps a ray whose window has shrunk to
   * a single parameter, which the strict test of the source rejects.
   */
  function HitInclusive(box: Box, r: Ray, rayT: Interval): bool
    requires NonZeroDirection(r)
  {
    Le(Window(box, r, rayT).0, Window(box, r, rayT).1)
  }

  /** No ray hits the default (empty) box, under either comparison. */
  lemma EmptyBoxNeverHit(r: Ray, rayT: Interval)
    requires NonZeroDirection(r)
    ensures !Hit(EmptyBox, r, rayT) && !HitInclusive(EmptyBox, r, rayT)
  {
    var (x0, x1) := SlabTimes(Empty, r.origin.x, r.direction.x);
    assert x0 == PosInf && x1 == NegInf;
  }

  // ---------------------------------------------------------------------------
  // Laws of the slab test

  lemma AlongMonotone(p: XReal, q: XReal, origin: real, invD: real)
    requires invD != 0.0 && Le(p, q)
    ensures invD > 0.0 ==> Le(Along(p, origin, invD), Along(q, origin, invD))
    ensures invD < 0.0 ==> Le(Along(q, origin, invD), Along(p, origin, invD))
  {
    if p.Fin? && q.Fin? {
      assert (q.v - origin) * invD - (p.v - origin) * invD == (q.v - p.v) * invD;
      if invD > 0.0 {
        assert 0.0 <= (q.v - p.v) * invD;
      } else {
        assert (q.v - p.v) * invD <= 0.0;
      }
    }
  }

  lemma InverseSign(dir: real)
    requires dir != 0.0
    ensures dir > 0.0 ==> 1.0 / dir > 0.0
    ensures dir < 0.0 ==> 1.0 / dir < 0.0
    ensures dir * (1.0 / dir) == 1.0
  {
  }

  /** A larger interval gives a larger slab, whatever the sign of the direction. */
  lemma SlabGrows(inner: Interval, outer: Interval, origin: real, dir: real)
    requires dir != 0.0 && IntervalContains(outer, inner)
    ensures Le(SlabTimes(outer, origin, dir).0, SlabTimes(inner, origin, dir).0)
    ensures Le(SlabTimes(inner, origin, dir).1, SlabTimes(outer, origin, dir).1)
  {
    InverseSign(dir);
    AlongMonotone(outer.min, inner.min, origin, 1.0 / dir);
    AlongMonotone(inner.max, outer.max, origin, 1.0 / dir);
  }

  /** A box that holds another has a window at least as wide for every ray. */
  lemma WindowGrows(inner: Box, outer: Box, r: Ray, rayT: Interval)
    requires NonZeroDirection(r) && Contains(outer, inner)
    ensures Le(Window(outer, r, rayT).0, Window(inner, r, rayT).0)
    ensures Le(Window(inner, r, rayT).1, Window(outer, r, rayT).1)
  {
    SlabGrows(inner.x, outer.x, r.origin.x, r.direction.x);
    SlabGrows(inner.y, outer.y, r.origin.y, r.direction.y);
    SlabGrows(inner.z, outer.z, r.origin.z, r.direction.z);
  }

  /** A ray that hits a box hits every box holding it, under either comparison. */
  lemma HitGrowsWithBox(inner: Box, outer: Box, r: Ray, rayT: Interval)
    requires NonZeroDirection(r) && Contains(outer, inner)
    ensures Hit(inner, r, rayT) ==> Hit(outer, r, rayT)
    ensures HitInclusive(inner, r, rayT) ==> HitInclusive(outer, r, rayT)
  {
    WindowGrows(inner, outer, r, rayT);
  }

  /** The final window lies inside the slab of every axis. */
  lemma WindowWithinSlabs(box: Box, r: Ray, rayT: Interval)
    requires NonZeroDirection(r)
    ensures Le(SlabTimes(box.x, r.origin.x, r.direction.x).0, Window(box, r, rayT).0)
    ensures Le(SlabTimes(box.y, r.origin.y, r.direction.y).0, Window(box, r, rayT).0)
    ensures Le(SlabTimes(box.z, r.origin.z, r.direction.z).0, Window(box, r, rayT).0)
    ensures Le(Window(box, r, rayT).1, SlabTimes(box.x, r.origin.x, r.direction.x).1)
    ensures Le(Window(box, r, rayT).1, SlabTimes(box.y, r.origin.y, r.direction.y).1)
    ensures Le(Window(box, r, rayT).1, SlabTimes(box.z, r.origin.z, r.direction.z).1)
  {
  }

  /** An axis of zero extent: a box that is flat along it. */
  predicate FlatAxis(i: Interval) { i.min.Fin? && i.min == i.max }

  predicate Flat(box: Box) { FlatAxis(box.x) || FlatAxis(box.y) || FlatAxis(box.z) }

  /**
   * The strict test of the source never reports a hit on a box that is flat along
   * some axis: the entry and exit parameters of that slab coincide.
   */
  lemma FlatBoxNeverHit(box: Box, r: Ray, rayT: Interval)
    requires NonZeroDirection(r) && Flat(box)
    ensures !Hit(box, r, rayT)
  {
    WindowWithinSlabs(box, r, rayT);
  }

  /** The slab of an axis holds the parameter of every point of the ray inside the axis' interval. */
  lemma SlabHoldsPoint(i: Interval, origin: real, dir: real, t: real, p: real)
    requires dir != 0.0 && p == origin + t * dir && IntervalHolds(i, p)
    ensures Le(SlabTimes(i, origin, dir).0, Fin(t)) && Le(Fin(t), SlabTimes(i, origin, dir).1)
  {
    InverseSign(dir);
    var invD := 1.0 / dir;
    assert (p - origin) * invD == t * (dir * invD);
    assert Along(Fin(p), origin, invD) == Fin(t);
    AlongMonotone(i.min, Fin(p), origin, invD);
    AlongMonotone(Fin(p), i.max, origin, invD);
  }

  /** Every slab holds the parameter of a point of the ray inside the closed box. */
  lemma SlabsHoldPoint(box: Box, r: Ray, t: real)
    requires NonZeroDirection(r) && ContainsPoint(box, At(r, t))
    ensures Le(SlabTimes(box.x, r.origin.x, r.direction.x).0, Fin(t)) && Le(Fin(t), SlabTimes(box.x, r.origin.x, r.direction.x).1)
    ensures Le(SlabTimes(box.y, r.origin.y, r.direction.y).0, Fin(t)) && Le(Fin(t), SlabTimes(box.y, r.origin.y, r.direction.y).1)
    ensures Le(SlabTimes(box.z, r.origin.z, r.direction.z).0, Fin(t)) && Le(Fin(t), SlabTimes(box.z, r.origin.z, r.direction.z).1)
  {
    AtComponents(r, t);
    SlabHoldsPoint(box.x, r.origin.x, r.direction.x, t, At(r, t).x);
    SlabHoldsPoint(box.y, r.origin.y, r.direction.y, t, At(r, t).y);
    SlabHoldsPoint(box.z, r.origin.z, r.direction.z, t, At(r, t).z);
  }

  /**
   * The inclusive slab test accepts every ray that reaches a point of the closed box at
   * a parameter strictly inside `rayT`.
   */
  lemma HitInclusiveAtPoint(box: Box, r: Ray, rayT: Interval, t: real)
    requires NonZeroDirection(r) && ContainsPoint(box, At(r, t)) && Surrounds(rayT, t)
    ensures HitInclusive(box, r, rayT)
  {
    SlabsHoldPoint(box, r, t);
    ClipHolds(SlabTimes(box.x, r.origin.x, r.direction.x), SlabTimes(box.y, r.origin.y, r.direction.y),
              SlabTimes(box.z, r.origin.z, r.direction.z), rayT, t);
    LeTransitive(Window(box, r, rayT).0, Fin(t), Window(box, r, rayT).1);
  }
}
