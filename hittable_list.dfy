// The scene as a flat list of objects (hittable_list.h): the composite that tests every
// object in turn, narrowing the ray interval to the closest hit found so far.
module HittableLists {
  import opened Vec
  import opened Intervals
  import opened Options
  import opened Hittable
  import opened Aabb
  import opened Primitives
  import Spheres

  /** The loop state of `hittable_list::hit`: `closest_so_far` and the last record taken. */
  datatype ScanState = ScanState(closest: XReal, best: Option<HitRecord>)

  /** One iteration: test the object on `(lo, closest)` and take its record if it hits. */
  function Step(o: Prim, r: Ray, lo: XReal, sq: real -> real, st: ScanState): (next: ScanState)
    ensures next == st || (next.best.Some? && next.closest == Fin(next.best.value.t) && Lt(next.closest, st.closest))
  {
    match PrimHit(o, r, Interval(lo, st.closest), sq)
    case Some(rec) => ScanState(Fin(rec.t), Some(rec))
    case None => st
  }

  /** The whole loop over `objects`, from the front. */
  function Scan(objects: seq<Prim>, r: Ray, lo: XReal, sq: real -> real, st: ScanState): ScanState
    decreases |objects|
  {
    if |objects| == 0 then st else Scan(objects[1..], r, lo, sq, Step(objects[0], r, lo, sq, st))
  }

  /** What `hittable_list::hit` reports: the record of the loop started from `ray_t.max`. */
  function ListHit(objects: seq<Prim>, r: Ray, rayT: Interval, sq: real -> real): Option<HitRecord> {
    Scan(objects, r, rayT.min, sq, ScanState(rayT.max, None)).best
  }

  /** No object is hit on `(lo, c)`. */
  predicate NoHit(objects: seq<Prim>, r: Ray, lo: XReal, c: XReal, sq: real -> real) {
    forall x :: x in objects ==> PrimHit(x, r, Interval(lo, c), sq).None?
  }

  /** No object is hit on `(lo, c)` before parameter `t`. */
  predicate NoneBefore(objects: seq<Prim>, r: Ray, lo: XReal, c: XReal, sq: real -> real, t: real) {
    forall x :: x in objects ==>
      PrimHit(x, r, Interval(lo, c), sq).None? || t <= PrimHit(x, r, Interval(lo, c), sq).value.t
  }

  /**
   * The loop, started from `closest == c`, either leaves its state alone because no
   * object hits on `(lo, c)`, or ends holding the hit of one of the objects on
   * `(lo, c)` that no other hit on `(lo, c)` precedes, with `closest` at its parameter.
   */
  lemma {:induction false} ScanFacts(objects: seq<Prim>, r: Ray, lo: XReal, sq: real -> real, c: XReal, b: Option<HitRecord>)
    requires Spheres.IsSqrt(sq)
    ensures var out := Scan(objects, r, lo, sq, ScanState(c, b));
      NoHit(objects, r, lo, c, sq) ==> out == ScanState(c, b)
    ensures var out := Scan(objects, r, lo, sq, ScanState(c, b));
      !NoHit(objects, r, lo, c, sq) ==>
        && out.best.Some?
        && out.closest == Fin(out.best.value.t)
        && Lt(out.closest, c)
        && (exists x :: x in objects && PrimHit(x, r, Interval(lo, c), sq) == out.best)
        && NoneBefore(objects, r, lo, c, sq, out.best.value.t)
    decreases |objects|
  {
    if |objects| > 0 {
      var o := objects[0];
      var rest := objects[1..];
      assert forall x :: x in objects <==> x == o || x in rest;
      var h := PrimHit(o, r, Interval(lo, c), sq);
      if h.None? {
        ScanFacts(rest, r, lo, sq, c, b);
      } else {
        var c' := Fin(h.value.t);
        assert Lt(c', c);
        ScanFacts(rest, r, lo, sq, c', h);
        var out := Scan(objects, r, lo, sq, ScanState(c, b));
        assert out == Scan(rest, r, lo, sq, ScanState(c', h));
        // every hit on the narrowed interval is the same hit on the wide one, and
        // every object the narrowed interval loses is hit no earlier than `c'`
        forall x | x in rest
          ensures PrimHit(x, r, Interval(lo, c'), sq).Some? ==>
            PrimHit(x, r, Interval(lo, c), sq) == PrimHit(x, r, Interval(lo, c'), sq)
          ensures PrimHit(x, r, Interval(lo, c'), sq).None? ==>
            PrimHit(x, r, Interval(lo, c), sq).None? || h.value.t <= PrimHit(x, r, Interval(lo, c), sq).value.t
        {
          PrimNarrowing(x, r, lo, c, c', sq);
        }
        if NoHit(rest, r, lo, c', sq) {
          assert out == ScanState(c', h);
        } else {
          var w :| w in rest && PrimHit(w, r, Interval(lo, c'), sq) == out.best;
          assert w in objects && PrimHit(w, r, Interval(lo, c), sq) == out.best;
          assert Lt(out.closest, c') && Lt(out.closest, c) by {
            LtTransitive(out.closest, c', c);
          }
          forall x | x in objects
            ensures PrimHit(x, r, Interval(lo, c), sq).None? || out.best.value.t <= PrimHit(x, r, Interval(lo, c), sq).value.t
          {
            if x != o {
              assert x in rest;
            }
          }
        }
      }
    }
  }

  /**
   * `hittable_list::hit` finds the closest hit: it reports none exactly when no object
   * is hit on the interval, and otherwise the record one object reports on the whole
   * interval, at a parameter no other object's hit precedes.
   */
  lemma ListHitIsClosest(objects: seq<Prim>, r: Ray, rayT: Interval, sq: real -> real)
    requires Spheres.IsSqrt(sq)
    ensures ListHit(objects, r, rayT, sq).None? <==> forall x :: x in objects ==> PrimHit(x, r, rayT, sq).None?
    ensures ListHit(objects, r, rayT, sq).Some? ==>
      exists x :: x in objects && PrimHit(x, r, rayT, sq) == ListHit(objects, r, rayT, sq)
    ensures ListHit(objects, r, rayT, sq).Some? ==>
      forall x :: x in objects && PrimHit(x, r, rayT, sq).Some? ==>
        ListHit(objects, r, rayT, sq).value.t <= PrimHit(x, r, rayT, sq).value.t
  {
    assert rayT == Interval(rayT.min, rayT.max);
    ScanFacts(objects, r, rayT.min, sq, rayT.max, None);
  }

  /** Running the loop over two lists in turn is running it over their concatenation. */
  lemma {:induction false} ScanAppend(front: seq<Prim>, back: seq<Prim>, r: Ray, lo: XReal, sq: real -> real, st: ScanState)
    ensures Scan(front + back, r, lo, sq, st) == Scan(back, r, lo, sq, Scan(front, r, lo, sq, st))
    decreases |front|
  {
    if |front| > 0 {
      var next := Step(front[0], r, lo, sq, st);
      assert (front + back)[0] == front[0];
      assert (front + back)[1..] == front[1..] + back;
      assert Scan(front + back, r, lo, sq, st) == Scan(front[1..] + back, r, lo, sq, next);
      ScanAppend(front[1..], back, r, lo, sq, next);
    } else {
      assert front + back == back;
    }
  }

  /**
   * After `add(o)` the scene reports the hit of `o` when `o` is hit strictly before the
   * hit the scene reported so far, or when there was none; otherwise the old hit.
   */
  lemma ListHitAfterAdd(objects: seq<Prim>, o: Prim, r: Ray, rayT: Interval, sq: real -> real)
    requires Spheres.IsSqrt(sq)
    ensures var before := ListHit(objects, r, rayT, sq);
      var own := PrimHit(o, r, rayT, sq);
      ListHit(objects + [o], r, rayT, sq) ==
        if own.Some? && (before.None? || own.value.t < before.value.t) then own else before
  {
    var init := ScanState(rayT.max, None);
    var mid := Scan(objects, r, rayT.min, sq, init);
    ScanAppend(objects, [o], r, rayT.min, sq, init);
    assert Scan([o], r, rayT.min, sq, mid) == Step(o, r, rayT.min, sq, mid);
    ScanFacts(objects, r, rayT.min, sq, rayT.max, None);
    assert rayT == Interval(rayT.min, rayT.max);
    assert Le(mid.closest, rayT.max) && (mid.best.None? ==> mid.closest == rayT.max);
    PrimNarrowing(o, r, rayT.min, rayT.max, mid.closest, sq);
  }

  /** A hit of a list of valid objects lies in the box the list reports. */
  lemma ListHitInBox(objects: seq<Prim>, r: Ray, rayT: Interval, sq: real -> real)
    requires Spheres.IsSqrt(sq) && (forall x :: x in objects ==> ValidPrim(x))
    requires ListHit(objects, r, rayT, sq).Some?
    ensures ContainsPoint(BoundsOf(objects), ListHit(objects, r, rayT, sq).value.p)
  {
    ListHitIsClosest(objects, r, rayT, sq);
    var x :| x in objects && PrimHit(x, r, rayT, sq) == ListHit(objects, r, rayT, sq);
    PrimHitInBox(x, r, rayT, sq);
    BoundsOfHoldsAll(objects);
    ContainsPointWithin(BoundsOf(objects), PrimBox(x), PrimHit(x, r, rayT, sq).value.p);
  }

  /** The scene container. */
  class HittableList {
    var objects: seq<Prim>

    /** `hittable_list()`: the empty scene. */
    constructor ()
      ensures objects == []
    {
      objects := [];
    }

    /** `hittable_list(object)`: a scene of one object. */
    constructor Single(o: Prim)
      ensures objects == [o]
    {
      objects := [o];
    }

    method Clear()
      modifies this
      ensures objects == []
    {
      objects := [];
    }

    /** Appends an object at the end of the scene. */
    method Add(o: Prim)
      modifies this
      ensures objects == old(objects) + [o]
    {
      objects := objects + [o];
    }

    /**
     * Tests every object on `(ray_t.min, closest_so_far)` and keeps the last record
     * taken; the record passed in comes back untouched when nothing is hit.
     */
    method Hit(r: Ray, rayT: Interval, sq: real -> real, rec0: HitRecord) returns (hitAnything: bool, rec: HitRecord)
      ensures hitAnything <==> ListHit(objects, r, rayT, sq).Some?
      ensures hitAnything ==> rec == ListHit(objects, r, rayT, sq).value
      ensures !hitAnything ==> rec == rec0
    {
      hitAnything := false;
      rec := rec0;
      var closest := rayT.max;
      var i := 0;
      while i < |objects|
        invariant 0 <= i <= |objects|
        invariant !hitAnything ==> rec == rec0 && closest == rayT.max
        invariant Scan(objects[i..], r, rayT.min, sq, ScanState(closest, if hitAnything then Some(rec) else None))
          == Scan(objects, r, rayT.min, sq, ScanState(rayT.max, None))
      {
        assert objects[i..][1..] == objects[i + 1..];
        var h := PrimHit(objects[i], r, Interval(rayT.min, closest), sq);
        if h.Some? {
          hitAnything := true;
          closest := Fin(h.value.t);
          rec := h.value;
        }
        i := i + 1;
      }
    }

    /** The box of the whole scene: the empty box, or the fold from the first object's box. */
    method BoundingBox() returns (box: Box)
      ensures box == BoundsOf(objects)
    {
      if |objects| == 0 {
        return EmptyBox;
      }
      box := PrimBox(objects[0]);
      assert objects[..1][..0] == [];
      UnionEmpty(box);
      var i := 1;
      while i < |objects|
        invariant 1 <= i <= |objects|
        invariant box == BoundsOf(objects[..i])
      {
        assert objects[..i + 1][..i] == objects[..i];
        box := Union(box, PrimBox(objects[i]));
        i := i + 1;
      }
      assert objects[..|objects|] == objects;
    }
  }
}
