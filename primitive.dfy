// The closed set of primitives a scene is made of. The BVH asks each object for its
// box through `get_bounding_box_static` (bvh.h), which tries the triangle type and
// then the sphere type; with a closed datatype the fallback to the empty box for any
// other kind of object cannot arise.
module Primitives {
  import opened Vec
  import opened Intervals
  import opened Options
  import opened Hittable
  import opened Aabb
  import Spheres
  import Triangles

  datatype Prim = SpherePrim(sphere: Spheres.Sphere) | TrianglePrim(triangle: Triangles.Triangle)

  /** Built by the constructors: a clamped radius, or a triangle's cached edges and box. */
  predicate ValidPrim(o: Prim) {
    match o
    case SpherePrim(s) => Spheres.Valid(s)
    case TrianglePrim(t) => Triangles.Valid(t)
  }

  /** `get_bounding_box_static`: the box each kind of primitive reports. */
  function PrimBox(o: Prim): (box: Box)
    ensures o.SpherePrim? ==> box == Spheres.BoundingBox(o.sphere)
    ensures o.TrianglePrim? ==> box == Triangles.BoundingBox(o.triangle)
  {
    match o
    case SpherePrim(s) => Spheres.BoundingBox(s)
    case TrianglePrim(t) => Triangles.BoundingBox(t)
  }

  /**
   * The virtual `hit` of a primitive. `None` stands for "false, record untouched";
   * a record is always at a parameter strictly inside the interval, on the ray.
   */
  function PrimHit(o: Prim, r: Ray, rayT: Interval, sq: real -> real): (res: Option<HitRecord>)
    ensures res.Some? ==> Surrounds(rayT, res.value.t) && res.value.p == At(r, res.value.t)
  {
    match o
    case SpherePrim(s) => Spheres.Hit(s, r, rayT, sq)
    case TrianglePrim(t) => Triangles.Hit(t, r, rayT)
  }

  /** The sort key of the BVH: the lower bound of the box on the split axis. */
  function Key(o: Prim, axis: int): XReal {
    AxisInterval(PrimBox(o), axis).min
  }

  /** Every hit of a valid primitive lies in its box. */
  lemma PrimHitInBox(o: Prim, r: Ray, rayT: Interval, sq: real -> real)
    requires Spheres.IsSqrt(sq) && ValidPrim(o) && PrimHit(o, r, rayT, sq).Some?
    ensures ContainsPoint(PrimBox(o), PrimHit(o, r, rayT, sq).value.p)
  {
    match o
    case SpherePrim(s) => Spheres.HitInsideBox(s, r, rayT, sq);
    case TrianglePrim(t) => Triangles.HitInsideBox(t, r, rayT);
  }

  /**
   * Lowering the upper end of the interval to `hi2` keeps a hit below `hi2` exactly as
   * it was and loses every other: a narrower search finds nothing the wide one missed.
   */
  lemma PrimNarrowing(o: Prim, r: Ray, lo: XReal, hi: XReal, hi2: XReal, sq: real -> real)
    requires Spheres.IsSqrt(sq) && Le(hi2, hi)
    ensures var wide := PrimHit(o, r, Interval(lo, hi), sq);
      wide.Some? && Lt(Fin(wide.value.t), hi2) ==> PrimHit(o, r, Interval(lo, hi2), sq) == wide
    ensures var wide := PrimHit(o, r, Interval(lo, hi), sq);
      wide.None? || Le(hi2, Fin(wide.value.t)) ==> PrimHit(o, r, Interval(lo, hi2), sq).None?
  {
    match o
    case SpherePrim(s) => Spheres.HitNarrowing(s, r, lo, hi, hi2, sq);
    case TrianglePrim(t) => TriangleNarrowing(t, r, lo, hi, hi2);
  }

  /** The triangle test computes its distance without the interval, so narrowing is immediate. */
  lemma TriangleNarrowing(t: Triangles.Triangle, r: Ray, lo: XReal, hi: XReal, hi2: XReal)
    requires Le(hi2, hi)
    ensures var wide := Triangles.Hit(t, r, Interval(lo, hi));
      wide.Some? && Lt(Fin(wide.value.t), hi2) ==> Triangles.Hit(t, r, Interval(lo, hi2)) == wide
    ensures var wide := Triangles.Hit(t, r, Interval(lo, hi));
      wide.None? || Le(hi2, Fin(wide.value.t)) ==> Triangles.Hit(t, r, Interval(lo, hi2)).None?
  {
    var narrow := Triangles.Hit(t, r, Interval(lo, hi2));
    if narrow.Some? {
      assert Lt(Fin(narrow.value.t), hi) by {
        if Lt(hi2, hi) {
          LtTransitive(Fin(narrow.value.t), hi2, hi);
        } else {
          LeAntisymmetric(hi2, hi);
        }
      }
    }
  }

  // ---------------------------------------------------------------------------
  // The box of a sequence of primitives

  /** The left fold of `surrounding_box` from the empty box over the boxes of `s`. */
  function BoundsOf(s: seq<Prim>): Box {
    if |s| == 0 then EmptyBox else Union(BoundsOf(s[..|s| - 1]), PrimBox(s[|s| - 1]))
  }

  /** The bounds hold the box of every element. */
  lemma {:induction false} BoundsOfHoldsAll(s: seq<Prim>)
    ensures forall x :: x in s ==> Contains(BoundsOf(s), PrimBox(x))
  {
    if |s| > 0 {
      var init := s[..|s| - 1];
      BoundsOfHoldsAll(init);
      forall x | x in s
        ensures Contains(BoundsOf(s), PrimBox(x))
      {
        if x != s[|s| - 1] {
          assert x in init;
          ContainsTransitive(BoundsOf(s), BoundsOf(init), PrimBox(x));
        }
      }
    }
  }

  /** The bounds are the least box holding the box of every element. */
  lemma {:induction false} BoundsOfLeast(s: seq<Prim>, c: Box)
    requires forall x :: x in s ==> Contains(c, PrimBox(x))
    ensures Contains(c, BoundsOf(s))
  {
    if |s| == 0 {
      ContainsEmpty(c);
    } else {
      var init := s[..|s| - 1];
      assert forall x :: x in init ==> x in s;
      BoundsOfLeast(init, c);
      UnionLeast(BoundsOf(init), PrimBox(s[|s| - 1]), c);
    }
  }

  /** The bounds depend only on which primitives occur, not on their order or count. */
  lemma BoundsOfSameElements(s: seq<Prim>, t: seq<Prim>)
    requires forall x :: x in s <==> x in t
    ensures BoundsOf(s) == BoundsOf(t)
  {
    BoundsOfHoldsAll(s);
    BoundsOfHoldsAll(t);
    BoundsOfLeast(s, BoundsOf(t));
    BoundsOfLeast(t, BoundsOf(s));
    ContainsAntisymmetric(BoundsOf(s), BoundsOf(t));
  }
}
