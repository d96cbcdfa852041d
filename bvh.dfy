// The bounding volume hierarchy (bvh.h): a binary tree whose nodes cache the box of
// the objects below them, built by sorting each range of objects along the longest
// axis of its box and splitting it in the middle, and traversed by testing a node's
// box before its children.
module Bvh {
  import opened Vec
  import opened Intervals
  import opened Options
  import opened Hittable
  import opened Aabb
  import opened Primitives
  import opened HittableLists
  import Spheres
  import Triangles

  /**
   * A child of a node is a primitive or another node. A node's fields are set by its
   * constructor and never change afterwards.
   */
  datatype Tree = Leaf(obj: Prim) | Node(left: Tree, right: Tree, bbox: Box)

  /** The primitives below a tree, left to right; a node of one object has it twice. */
  function Leaves(t: Tree): seq<Prim> {
    match t
    case Leaf(o) => [o]
    case Node(left, right, _) => Leaves(left) + Leaves(right)
  }

  /** `bounding_box` of a child: a primitive's own box, or the box a node cached. */
  function TreeBox(t: Tree): (box: Box)
    ensures t.Leaf? ==> box == PrimBox(t.obj)
    ensures t.Node? ==> box == t.bbox
  {
    match t
    case Leaf(o) => PrimBox(o)
    case Node(_, _, bbox) => bbox
  }

  // ---------------------------------------------------------------------------
  // The shape the constructor gives a tree

  /** Every pair of positions in order of the key on `axis`. */
  predicate SortedBy(s: seq<Prim>, axis: int) {
    forall i, j :: 0 <= i < j < |s| ==> Le(Key(s[i], axis), Key(s[j], axis))
  }

  /** No object of the first `m` has a larger key on `axis` than an object after them. */
  predicate SplitBy(s: seq<Prim>, m: int, axis: int)
    requires 0 <= m <= |s|
  {
    forall x, y :: x in s[..m] && y in s[m..] ==> Le(Key(x, axis), Key(y, axis))
  }

  /**
   * `t` is what the constructor makes of the range that ends up as `s`: a node with
   * the box of the whole range; one object as both children; two objects as the two
   * children in order; and otherwise the range split in the middle, with no object of
   * the first half after one of the second on the longest axis of the box, and each
   * half built the same way.
   */
  predicate BuiltFrom(t: Tree, s: seq<Prim>)
    decreases |s|
  {
    && t.Node?
    && t.bbox == BoundsOf(s)
    && (if |s| == 1 then t.left == Leaf(s[0]) && t.right == Leaf(s[0])
        else if |s| == 2 then t.left == Leaf(s[0]) && t.right == Leaf(s[1])
        else
          && |s| > 2
          && SplitBy(s, |s| / 2, LongestAxis(BoundsOf(s)))
          && BuiltFrom(t.left, s[..|s| / 2])
          && BuiltFrom(t.right, s[|s| / 2..]))
  }

  /** Every leaf is valid and every node's box holds the boxes of the leaves below it. */
  predicate Bounded(t: Tree) {
    match t
    case Leaf(o) => ValidPrim(o)
    case Node(left, right, bbox) =>
      Bounded(left) && Bounded(right) &&
      forall x :: x in Leaves(t) ==> ValidPrim(x) && Contains(bbox, PrimBox(x))
  }

  /** A built tree has exactly the objects of its range as leaves. */
  lemma {:induction false} BuiltLeaves(t: Tree, s: seq<Prim>)
    requires BuiltFrom(t, s)
    ensures forall x :: x in Leaves(t) <==> x in s
    decreases |s|
  {
    if |s| > 2 {
      var m := |s| / 2;
      assert s == s[..m] + s[m..];
      BuiltLeaves(t.left, s[..m]);
      BuiltLeaves(t.right, s[m..]);
    }
  }

  /**
   * Counted with multiplicity, a built tree holds every object of its range at least as
   * often as the range does, and at most twice as often: only a one-object range
   * repeats its object.
   */
  lemma {:induction false} BuiltMultiplicity(t: Tree, s: seq<Prim>)
    requires BuiltFrom(t, s)
    ensures multiset(s) <= multiset(Leaves(t))
    ensures forall x :: multiset(Leaves(t))[x] <= 2 * multiset(s)[x]
    decreases |s|
  {
    if |s| > 2 {
      var m := |s| / 2;
      var lo, hi := s[..m], s[m..];
      assert s == lo + hi;
      BuiltMultiplicity(t.left, lo);
      BuiltMultiplicity(t.right, hi);
      MultiplicityJoin(lo, hi, Leaves(t.left), Leaves(t.right));
    } else if |s| == 2 {
      assert s == [s[0]] + [s[1]] && Leaves(t) == [s[0]] + [s[1]];
      MultiplicityJoin([s[0]], [s[1]], [s[0]], [s[1]]);
    } else {
      assert s == [s[0]] && Leaves(t) == [s[0]] + [s[0]];
      Doubled(s[0]);
    }
  }

  /** Bounds on multiplicity carry over from two halves to their concatenation. */
  lemma MultiplicityJoin(lo: seq<Prim>, hi: seq<Prim>, a: seq<Prim>, b: seq<Prim>)
    requires multiset(lo) <= multiset(a) && forall x :: multiset(a)[x] <= 2 * multiset(lo)[x]
    requires multiset(hi) <= multiset(b) && forall x :: multiset(b)[x] <= 2 * multiset(hi)[x]
    ensures multiset(lo + hi) <= multiset(a + b)
    ensures forall x :: multiset(a + b)[x] <= 2 * multiset(lo + hi)[x]
  {
    assert multiset(lo + hi) == multiset(lo) + multiset(hi);
    assert multiset(a + b) == multiset(a) + multiset(b);
  }

  /** An object listed twice is counted twice. */
  lemma Doubled(o: Prim)
    ensures multiset([o]) <= multiset([o] + [o])
    ensures forall x :: multiset([o] + [o])[x] <= 2 * multiset([o])[x]
  {
    assert multiset([o] + [o]) == multiset([o]) + multiset([o]);
  }

  /** A built tree has exactly the objects of its range as leaves, inside every box above them. */
  lemma {:induction false} BuiltFromShape(t: Tree, s: seq<Prim>)
    requires BuiltFrom(t, s) && forall x :: x in s ==> ValidPrim(x)
    ensures forall x :: x in Leaves(t) <==> x in s
    ensures Bounded(t)
    decreases |s|
  {
    BoundsOfHoldsAll(s);
    BuiltLeaves(t, s);
    if |s| > 2 {
      var m := |s| / 2;
      assert forall x :: x in s[..m] ==> x in s;
      assert forall x :: x in s[m..] ==> x in s;
      BuiltFromShape(t.left, s[..m]);
      BuiltFromShape(t.right, s[m..]);
    }
  }

  /** Two sequences with the same elements, counted with multiplicity, have the same elements. */
  lemma SameMembers(s: seq<Prim>, u: seq<Prim>)
    requires multiset(s) == multiset(u)
    ensures forall x :: x in s <==> x in u
  {
    forall x
      ensures x in s <==> x in u
    {
      assert x in s <==> x in multiset(s);
      assert x in u <==> x in multiset(u);
    }
  }

  /** A sorted sequence is split by the key at every position. */
  lemma SortedSplits(s: seq<Prim>, m: int, axis: int)
    requires 0 <= m <= |s| && SortedBy(s, axis)
    ensures SplitBy(s, m, axis)
  {
    forall x, y | x in s[..m] && y in s[m..]
      ensures Le(Key(x, axis), Key(y, axis))
    {
      var i :| 0 <= i < m && s[..m][i] == x;
      var j :| 0 <= j < |s| - m && s[m..][j] == y;
      assert s[i] == x && s[m + j] == y;
    }
  }

  /** Permuting each side of a split keeps it a split. */
  lemma SplitPermuted(s: seq<Prim>, u: seq<Prim>, m: int, axis: int)
    requires 0 <= m <= |s| == |u| && SplitBy(s, m, axis)
    requires multiset(s[..m]) == multiset(u[..m]) && multiset(s[m..]) == multiset(u[m..])
    ensures SplitBy(u, m, axis)
  {
    SameMembers(s[..m], u[..m]);
    SameMembers(s[m..], u[m..]);
  }

  /** Permuting each half of a permutation of `before` gives a permutation of `before`. */
  lemma HalvesPermuted(before: seq<Prim>, sorted: seq<Prim>, after: seq<Prim>, m: int)
    requires 0 <= m <= |sorted| == |after|
    requires multiset(sorted) == multiset(before)
    requires multiset(after[..m]) == multiset(sorted[..m]) && multiset(after[m..]) == multiset(sorted[m..])
    ensures multiset(after) == multiset(before)
  {
    assert after == after[..m] + after[m..];
    assert sorted == sorted[..m] + sorted[m..];
  }

  /** The node case of `BuiltFrom`, stated on its own. */
  lemma NodeShape(left: Tree, right: Tree, s: seq<Prim>)
    requires |s| > 2 && SplitBy(s, |s| / 2, LongestAxis(BoundsOf(s)))
    requires BuiltFrom(left, s[..|s| / 2]) && BuiltFrom(right, s[|s| / 2..])
    ensures BuiltFrom(Node(left, right, BoundsOf(s)), s)
  {
  }

  /**
   * The recursive case of the constructor: a range of more than two objects whose box
   * was taken before the sort, sorted on the longest axis of that box into two halves
   * that the recursive calls then permuted and built, makes a node built from the result.
   */
  lemma NodeBuilt(before: seq<Prim>, sorted: seq<Prim>, sortedLeft: seq<Prim>, sortedRight: seq<Prim>,
                  after: seq<Prim>, leftPart: seq<Prim>, rightPart: seq<Prim>, left: Tree, right: Tree, axis: int)
    requires |before| > 2 && |sortedLeft| == |before| / 2 && |sortedLeft| + |sortedRight| == |before|
    requires sorted == sortedLeft + sortedRight && after == leftPart + rightPart
    requires multiset(sorted) == multiset(before) && SortedBy(sorted, axis)
    requires axis == LongestAxis(BoundsOf(before))
    requires multiset(leftPart) == multiset(sortedLeft) && multiset(rightPart) == multiset(sortedRight)
    requires BuiltFrom(left, leftPart) && BuiltFrom(right, rightPart)
    ensures multiset(after) == multiset(before)
    ensures BuiltFrom(Node(left, right, BoundsOf(before)), after)
  {
    var m := |sortedLeft|;
    assert |leftPart| == m by {
      assert |multiset(leftPart)| == |multiset(sortedLeft)|;
    }
    assert |rightPart| == |sortedRight| by {
      assert |multiset(rightPart)| == |multiset(sortedRight)|;
    }
    assert sorted[..m] == sortedLeft && sorted[m..] == sortedRight;
    assert after[..m] == leftPart && after[m..] == rightPart;
    HalvesPermuted(before, sorted, after, m);
    SameMembers(after, before);
    BoundsOfSameElements(after, before);
    SortedSplits(sorted, m, axis);
    SplitPermuted(sorted, after, m, axis);
    NodeShape(left, right, after);
  }

  /** `[lo, hi)` of `s` is in order of the key on `axis`. */
  predicate SortedRange(s: seq<Prim>, lo: int, hi: int, axis: int)
    requires 0 <= lo <= hi <= |s|
  {
    forall p, q :: lo <= p < q < hi ==> Le(Key(s[p], axis), Key(s[q], axis))
  }

  lemma SortedRangeSlice(s: seq<Prim>, lo: int, hi: int, axis: int)
    requires 0 <= lo <= hi <= |s| && SortedRange(s, lo, hi, axis)
    ensures SortedBy(s[lo..hi], axis)
  {
    assert forall p, q :: 0 <= p < q < hi - lo ==> s[lo..hi][p] == s[lo + p] && s[lo..hi][q] == s[lo + q];
  }

  /**
   * Permuting `[lo, mid)` and keeping everything outside it permutes `[lo, hi)` and
   * keeps everything outside that.
   */
  lemma PrefixPermuted(s: seq<Prim>, u: seq<Prim>, lo: int, mid: int, hi: int)
    requires 0 <= lo <= mid <= hi <= |s| == |u|
    requires multiset(s[lo..mid]) == multiset(u[lo..mid]) && s[..lo] == u[..lo] && s[mid..] == u[mid..]
    ensures multiset(s[lo..hi]) == multiset(u[lo..hi]) && s[hi..] == u[hi..]
  {
    assert s[mid..hi] == s[mid..][..hi - mid] && u[mid..hi] == u[mid..][..hi - mid];
    assert s[hi..] == s[mid..][hi - mid..] && u[hi..] == u[mid..][hi - mid..];
    assert s[lo..hi] == s[lo..mid] + s[mid..hi];
    assert u[lo..hi] == u[lo..mid] + u[mid..hi];
  }

  /** `[start, i]` is sorted by `Key` once the object at `j` is ignored. */
  predicate SortedAround(s: seq<Prim>, start: int, i: int, j: int, axis: int)
    requires 0 <= start <= i < |s|
  {
    forall p, q :: start <= p < q <= i && p != j && q != j ==> Le(Key(s[p], axis), Key(s[q], axis))
  }

  /** The object at `j` has a smaller key than every object after it up to `i`. */
  predicate BelowRest(s: seq<Prim>, j: int, i: int, axis: int)
    requires 0 <= j <= i < |s|
  {
    forall q :: j < q <= i ==> Lt(Key(s[j], axis), Key(s[q], axis))
  }

  /** Swapping the object at `j` with a larger predecessor moves the gap down by one. */
  lemma SwapDown(s: seq<Prim>, u: seq<Prim>, start: int, j: int, i: int, axis: int)
    requires 0 <= start < j <= i < |s| == |u|
    requires SortedAround(s, start, i, j, axis) && BelowRest(s, j, i, axis)
    requires Lt(Key(s[j], axis), Key(s[j - 1], axis))
    requires u == s[j - 1 := s[j]][j := s[j - 1]]
    ensures SortedAround(u, start, i, j - 1, axis) && BelowRest(u, j - 1, i, axis)
    ensures multiset(u[start..i + 1]) == multiset(s[start..i + 1])
    ensures u[..start] == s[..start] && u[i + 1..] == s[i + 1..]
  {
    SwapKeepsSorted(s, u, start, j, i, axis);
    SwapKeepsBelow(s, u, start, j, i, axis);
    SwapPermutes(s, u, start, j, i);
  }

  lemma SwapKeepsSorted(s: seq<Prim>, u: seq<Prim>, start: int, j: int, i: int, axis: int)
    requires 0 <= start < j <= i < |s| == |u|
    requires SortedAround(s, start, i, j, axis)
    requires u == s[j - 1 := s[j]][j := s[j - 1]]
    ensures SortedAround(u, start, i, j - 1, axis)
  {
    forall p, q | start <= p < q <= i && p != j - 1 && q != j - 1
      ensures Le(Key(u[p], axis), Key(u[q], axis))
    {
      var p' := if p == j then j - 1 else p;
      var q' := if q == j then j - 1 else q;
      assert u[p] == s[p'] && u[q] == s[q'];
    }
  }

  lemma SwapKeepsBelow(s: seq<Prim>, u: seq<Prim>, start: int, j: int, i: int, axis: int)
    requires 0 <= start < j <= i < |s| == |u|
    requires SortedAround(s, start, i, j, axis) && BelowRest(s, j, i, axis)
    requires Lt(Key(s[j], axis), Key(s[j - 1], axis))
    requires u == s[j - 1 := s[j]][j := s[j - 1]]
    ensures BelowRest(u, j - 1, i, axis)
  {
    forall q | j - 1 < q <= i
      ensures Lt(Key(u[j - 1], axis), Key(u[q], axis))
    {
      if q > j {
        assert Le(Key(s[j - 1], axis), Key(s[q], axis));
        LtLeTransitive(Key(s[j], axis), Key(s[j - 1], axis), Key(s[q], axis));
      }
    }
  }

  lemma SwapPermutes(s: seq<Prim>, u: seq<Prim>, start: int, j: int, i: int)
    requires 0 <= start < j <= i < |s| == |u|
    requires u == s[j - 1 := s[j]][j := s[j - 1]]
    ensures multiset(u[start..i + 1]) == multiset(s[start..i + 1])
    ensures u[..start] == s[..start] && u[i + 1..] == s[i + 1..]
  {
    assert u[start..i + 1] == s[start..i + 1][j - 1 - start := s[j]][j - start := s[j - 1]];
  }

  /** When the gap stops, every object before it has a key no larger than its own. */
  lemma GapClosed(s: seq<Prim>, start: int, j: int, i: int, axis: int)
    requires 0 <= start <= j <= i < |s|
    requires SortedAround(s, start, i, j, axis) && BelowRest(s, j, i, axis)
    requires j > start ==> Le(Key(s[j - 1], axis), Key(s[j], axis))
    ensures SortedRange(s, start, i + 1, axis)
  {
    forall p, q | start <= p < q <= i
      ensures Le(Key(s[p], axis), Key(s[q], axis))
    {
      if q == j && p < j - 1 {
        LeTransitive(Key(s[p], axis), Key(s[j - 1], axis), Key(s[j], axis));
      } else if p == j {
        assert Lt(Key(s[p], axis), Key(s[q], axis));
      }
    }
  }

  /**
   * One step of the insertion sort: the object at `i` is swapped down past every object
   * with a larger key, so a range `[start, i)` sorted by `Key` becomes a sorted `[start, i]`.
   */
  method Insert(a: array<Prim>, start: int, i: int, axis: int)
    requires 0 <= start <= i < a.Length
    requires SortedRange(a[..], start, i, axis)
    modifies a
    ensures SortedRange(a[..], start, i + 1, axis)
    ensures multiset(a[start..i + 1]) == multiset(old(a[start..i + 1]))
    ensures a[..start] == old(a[..start]) && a[i + 1..] == old(a[i + 1..])
  {
    var j := i;
    while j > start && Lt(Key(a[j], axis), Key(a[j - 1], axis))
      invariant start <= j <= i
      invariant SortedAround(a[..], start, i, j, axis) && BelowRest(a[..], j, i, axis)
      invariant multiset(a[start..i + 1]) == multiset(old(a[start..i + 1]))
      invariant a[..start] == old(a[..start]) && a[i + 1..] == old(a[i + 1..])
    {
      ghost var s := a[..];
      a[j - 1], a[j] := a[j], a[j - 1];
      SwapDown(s, a[..], start, j, i, axis);
      j := j - 1;
    }
    GapClosed(a[..], start, j, i, axis);
  }

  /**
   * `std::sort` of `objects[start, end)` by the lower bound of each box on `axis`,
   * written as an insertion sort: the range ends sorted and permuted, the rest untouched.
   */
  method SortRange(a: array<Prim>, start: int, end: int, axis: int)
    requires 0 <= start <= end <= a.Length
    modifies a
    ensures SortedBy(a[start..end], axis)
    ensures multiset(a[start..end]) == multiset(old(a[start..end]))
    ensures a[..start] == old(a[..start]) && a[end..] == old(a[end..])
  {
    var i := start;
    while i < end
      invariant start <= i <= end
      invariant SortedRange(a[..], start, i, axis)
      invariant multiset(a[start..end]) == multiset(old(a[start..end]))
      invariant a[..start] == old(a[..start]) && a[end..] == old(a[end..])
    {
      ghost var pre := a[..];
      Insert(a, start, i, axis);
      PrefixPermuted(a[..], pre, start, i + 1, end);
      i := i + 1;
    }
    SortedRangeSlice(a[..], start, end, axis);
  }

  /** The fold of `surrounding_box` from the empty box over `objects[start, end)`. */
  method RangeBox(a: array<Prim>, start: int, end: int) returns (bbox: Box)
    requires 0 <= start <= end <= a.Length
    ensures bbox == BoundsOf(a[start..end])
  {
    bbox := EmptyBox;
    var i := start;
    while i < end
      invariant start <= i <= end
      invariant bbox == BoundsOf(a[start..i])
    {
      assert a[start..i + 1][..i - start] == a[start..i];
      bbox := Union(bbox, PrimBox(a[i]));
      i := i + 1;
    }
  }

  /**
   * The constructor over `objects[start, end)`: the box of the range, its longest axis,
   * then one object as both children, two objects as the two children, or a sort on
   * that axis and a node of the two halves built recursively. The range is permuted in
   * place and the rest of the array is untouched.
   */
  method Build(a: array<Prim>, start: int, end: int) returns (t: Tree)
    requires 0 <= start < end <= a.Length
    modifies a
    ensures BuiltFrom(t, a[start..end])
    ensures multiset(a[start..end]) == multiset(old(a[start..end]))
    ensures a[..start] == old(a[..start]) && a[end..] == old(a[end..])
    decreases end - start, 1
  {
    var bbox := RangeBox(a, start, end);
    var axis := LongestAxis(bbox);
    var span := end - start;
    if span == 1 {
      t := Node(Leaf(a[start]), Leaf(a[start]), bbox);
    } else if span == 2 {
      t := Node(Leaf(a[start]), Leaf(a[start + 1]), bbox);
    } else {
      t := Split(a, start, end, bbox, axis);
    }
  }

  /**
   * The recursive case of the constructor: sort the range on `axis`, build the two
   * halves and join them under the box taken before the sort.
   */
  method Split(a: array<Prim>, start: int, end: int, bbox: Box, axis: int) returns (t: Tree)
    requires 0 <= start && end - start > 2 && end <= a.Length
    requires bbox == BoundsOf(a[start..end]) && axis == LongestAxis(bbox)
    modifies a
    ensures BuiltFrom(t, a[start..end])
    ensures multiset(a[start..end]) == multiset(old(a[start..end]))
    ensures a[..start] == old(a[..start]) && a[end..] == old(a[end..])
    decreases end - start, 0
  {
    ghost var s, before := a[..], a[start..end];
    SortRange(a, start, end, axis);
    var mid := start + (end - start) / 2;
    ghost var s0, sorted, sortedLeft, sortedRight := a[..], a[start..end], a[start..mid], a[mid..end];
    var left := Build(a, start, mid);
    ghost var s1, leftPart := a[..], a[start..mid];
    var right := Build(a, mid, end);
    ghost var s2, rightPart, after := a[..], a[mid..end], a[start..end];
    HalvesKept(s, s0, s1, s2, start, mid, end);
    NodeBuilt(before, sorted, sortedLeft, sortedRight, after, leftPart, rightPart, left, right, axis);
    t := Node(left, right, bbox);
  }

  /**
   * The array before the sort (`s`), after it (`s0`), after building the left half
   * (`s1`) and after building the right half (`s2`): each step touches its own range only.
   */
  lemma HalvesKept(s: seq<Prim>, s0: seq<Prim>, s1: seq<Prim>, s2: seq<Prim>, start: int, mid: int, end: int)
    requires 0 <= start <= mid <= end <= |s| == |s0| == |s1| == |s2|
    requires s0[..start] == s[..start] && s0[end..] == s[end..]
    requires s1[..start] == s0[..start] && s1[mid..] == s0[mid..]
    requires s2[..mid] == s1[..mid] && s2[end..] == s1[end..]
    ensures s0[start..end] == s0[start..mid] + s0[mid..end]
    ensures s2[start..end] == s1[start..mid] + s2[mid..end]
    ensures s1[mid..end] == s0[mid..end]
    ensures s2[..start] == s[..start] && s2[end..] == s[end..]
  {
    assert s1[mid..end] == s1[mid..][..end - mid];
    assert s0[mid..end] == s0[mid..][..end - mid];
    assert s2[start..mid] == s2[..mid][start..] && s1[start..mid] == s1[..mid][start..];
    assert s2[..start] == s2[..mid][..start] && s1[..start] == s1[..mid][..start];
    assert s1[end..] == s1[mid..][end - mid..] && s0[end..] == s0[mid..][end - mid..];
    assert s2[start..end] == s2[start..mid] + s2[mid..end];
  }

  /**
   * `bvh_node(hittable_list list)`: the constructor over a copy of the scene's objects,
   * which leaves the scene as it was. `order` is the order the copy ends in.
   */
  method FromList(list: HittableList) returns (t: Tree, ghost order: seq<Prim>)
    requires |list.objects| > 0
    ensures BuiltFrom(t, order) && multiset(order) == multiset(list.objects)
    ensures forall x :: x in Leaves(t) <==> x in list.objects
  {
    var objects := list.objects;
    var a := new Prim[|objects|](k requires 0 <= k < |objects| => objects[k]);
    assert a[0..a.Length] == objects;
    t := Build(a, 0, a.Length);
    order := a[0..a.Length];
    BuiltLeaves(t, order);
    SameMembers(order, objects);
  }

  // ---------------------------------------------------------------------------
  // Traversal

  /** The comparison of the slab test: the strict one of the source, or the closed one. */
  datatype BoxRule = Strict | Inclusive

  function BoxTest(rule: BoxRule, box: Box, r: Ray, rayT: Interval): bool
    requires NonZeroDirection(r)
  {
    match rule
    case Strict => Aabb.Hit(box, r, rayT)
    case Inclusive => HitInclusive(box, r, rayT)
  }

  /**
   * `bvh_node::hit`: give up when the ray misses the node's box; otherwise test the
   * left child on the whole interval and the right child on the interval cut at the
   * left child's hit, keeping the right child's record when it has one.
   */
  function Traverse(rule: BoxRule, t: Tree, r: Ray, rayT: Interval, sq: real -> real): (res: Option<HitRecord>)
    requires NonZeroDirection(r)
    ensures res.Some? ==> Surrounds(rayT, res.value.t) && res.value.p == At(r, res.value.t)
  {
    match t
    case Leaf(o) => PrimHit(o, r, rayT, sq)
    case Node(left, right, bbox) =>
      if !BoxTest(rule, bbox, r, rayT) then None
      else
        var hl := Traverse(rule, left, r, rayT, sq);
        var hr := Traverse(rule, right, r, Interval(rayT.min, if hl.Some? then Fin(hl.value.t) else rayT.max), sq);
        if hr.Some? then hr else hl
  }

  /**
   * The loop over a list written in the narrowing form of the BVH: a loop that starts
   * with a record already in hand ends with the record of the loop started without one,
   * or keeps the record in hand when that loop takes none.
   */
  lemma {:induction false} ScanPrior(objects: seq<Prim>, r: Ray, lo: XReal, sq: real -> real, c: XReal, b: Option<HitRecord>)
    ensures var clean := Scan(objects, r, lo, sq, ScanState(c, None));
      Scan(objects, r, lo, sq, ScanState(c, b)) == if clean.best.Some? then clean else ScanState(c, b)
    decreases |objects|
  {
    if |objects| > 0 {
      var rest := objects[1..];
      var h := PrimHit(objects[0], r, Interval(lo, c), sq);
      if h.None? {
        ScanPrior(rest, r, lo, sq, c, b);
      } else {
        ScanPrior(rest, r, lo, sq, Fin(h.value.t), h);
      }
    }
  }

  /** No object is hit on `rayT` when the closed test rejects a box holding all their boxes. */
  lemma MissedBoxHasNoHit(objects: seq<Prim>, box: Box, r: Ray, rayT: Interval, sq: real -> real)
    requires Spheres.IsSqrt(sq) && NonZeroDirection(r)
    requires forall x :: x in objects ==> ValidPrim(x) && Contains(box, PrimBox(x))
    requires !HitInclusive(box, r, rayT)
    ensures ListHit(objects, r, rayT, sq).None?
  {
    ListHitIsClosest(objects, r, rayT, sq);
    forall x | x in objects
      ensures PrimHit(x, r, rayT, sq).None?
    {
      var h := PrimHit(x, r, rayT, sq);
      if h.Some? {
        PrimHitInBox(x, r, rayT, sq);
        ContainsPointWithin(box, PrimBox(x), h.value.p);
        HitInclusiveAtPoint(box, r, rayT, h.value.t);
        assert false;
      }
    }
  }

  /**
   * With the closed slab test, traversing a bounded tree is exactly the loop of
   * `hittable_list::hit` over its leaves, left to right: the same record or none.
   */
  lemma {:induction false} TraverseInclusiveIsScan(t: Tree, r: Ray, rayT: Interval, sq: real -> real)
    requires Spheres.IsSqrt(sq) && NonZeroDirection(r) && Bounded(t)
    ensures Traverse(Inclusive, t, r, rayT, sq) == ListHit(Leaves(t), r, rayT, sq)
  {
    match t
    case Leaf(o) =>
      var st := ScanState(rayT.max, None);
      assert Leaves(t)[1..] == [];
      assert Scan(Leaves(t), r, rayT.min, sq, st) == Step(o, r, rayT.min, sq, st);
      assert rayT == Interval(rayT.min, rayT.max);
    case Node(left, right, bbox) =>
      var lo := rayT.min;
      if !HitInclusive(bbox, r, rayT) {
        MissedBoxHasNoHit(Leaves(t), bbox, r, rayT, sq);
      } else {
        var hl := Traverse(Inclusive, left, r, rayT, sq);
        var c := if hl.Some? then Fin(hl.value.t) else rayT.max;
        TraverseInclusiveIsScan(left, r, rayT, sq);
        TraverseInclusiveIsScan(right, r, Interval(lo, c), sq);
        var mid := Scan(Leaves(left), r, lo, sq, ScanState(rayT.max, None));
        ScanFacts(Leaves(left), r, lo, sq, rayT.max, None);
        assert mid == ScanState(c, hl);
        ScanAppend(Leaves(left), Leaves(right), r, lo, sq, ScanState(rayT.max, None));
        ScanPrior(Leaves(right), r, lo, sq, c, hl);
      }
  }

  /**
   * Every record the strict traversal reports is the record one of the leaves reports
   * on the whole interval: the source's traversal may lose hits, but invents none.
   */
  lemma {:induction false} TraverseStrictSound(t: Tree, r: Ray, rayT: Interval, sq: real -> real)
    requires Spheres.IsSqrt(sq) && NonZeroDirection(r)
    requires Traverse(Strict, t, r, rayT, sq).Some?
    ensures exists x :: x in Leaves(t) && PrimHit(x, r, rayT, sq) == Traverse(Strict, t, r, rayT, sq)
  {
    match t
    case Leaf(o) =>
      assert o in Leaves(t);
    case Node(left, right, bbox) =>
      var hl := Traverse(Strict, left, r, rayT, sq);
      var c := if hl.Some? then Fin(hl.value.t) else rayT.max;
      var hr := Traverse(Strict, right, r, Interval(rayT.min, c), sq);
      if hr.Some? {
        TraverseStrictSound(right, r, Interval(rayT.min, c), sq);
        var x :| x in Leaves(right) && PrimHit(x, r, Interval(rayT.min, c), sq) == hr;
        assert Le(c, rayT.max);
        PrimNarrowing(x, r, rayT.min, rayT.max, c, sq);
        assert rayT == Interval(rayT.min, rayT.max);
        assert x in Leaves(t);
      } else {
        TraverseStrictSound(left, r, rayT, sq);
        var x :| x in Leaves(left) && PrimHit(x, r, rayT, sq) == hl;
        assert x in Leaves(t);
      }
  }

  /**
   * A tree built from a scene, traversed with the closed slab test, finds what the
   * flat scene finds: a hit exactly when the scene has one, at the same parameter, and
   * the record of one of the scene's objects. When two objects are hit at the same
   * parameter, the tree and the list may report different ones of them.
   */
  lemma BvhAgreesWithList(t: Tree, order: seq<Prim>, objects: seq<Prim>, r: Ray, rayT: Interval, sq: real -> real)
    requires Spheres.IsSqrt(sq) && NonZeroDirection(r)
    requires BuiltFrom(t, order) && multiset(order) == multiset(objects)
    requires forall x :: x in objects ==> ValidPrim(x)
    ensures Traverse(Inclusive, t, r, rayT, sq).Some? <==> ListHit(objects, r, rayT, sq).Some?
    ensures Traverse(Inclusive, t, r, rayT, sq).Some? ==>
      Traverse(Inclusive, t, r, rayT, sq).value.t == ListHit(objects, r, rayT, sq).value.t
    ensures Traverse(Inclusive, t, r, rayT, sq).Some? ==>
      exists x :: x in objects && PrimHit(x, r, rayT, sq) == Traverse(Inclusive, t, r, rayT, sq)
  {
    assert forall x :: x in order <==> x in objects by {
      forall x
        ensures x in order <==> x in objects
      {
        assert x in order <==> x in multiset(order);
      }
    }
    BuiltFromShape(t, order);
    TraverseInclusiveIsScan(t, r, rayT, sq);
    ListHitIsClosest(Leaves(t), r, rayT, sq);
    ListHitIsClosest(objects, r, rayT, sq);
    var tree := ListHit(Leaves(t), r, rayT, sq);
    var flat := ListHit(objects, r, rayT, sq);
    if tree.Some? && flat.Some? {
      var x :| x in Leaves(t) && PrimHit(x, r, rayT, sq) == tree;
      var y :| y in objects && PrimHit(y, r, rayT, sq) == flat;
      assert flat.value.t <= tree.value.t;
      assert tree.value.t <= flat.value.t;
    }
  }

  // ---------------------------------------------------------------------------
  // The strict slab test loses flat objects

  /**
   * The lower half of the unit square in the plane z = 0, with the edges, normal and
   * box its constructor computes.
   */
  const FlatTriangle: Triangles.Triangle :=
    Triangles.Triangle(Zero, Vec3(1.0, 0.0, 0.0), Vec3(0.0, 1.0, 0.0),
      Vec3(1.0, 0.0, 0.0), Vec3(0.0, 1.0, 0.0), Vec3(0.0, 0.0, 1.0), Plain,
      Box(Interval(Fin(0.0), Fin(1.0)), Interval(Fin(0.0), Fin(1.0)), Interval(Fin(0.0), Fin(0.0))))

  /** A ray falling onto that triangle, reaching the plane at t = 1/4 in (0.35, 0.35, 0). */
  const Falling: Ray := Ray(Vec3(0.1, 0.1, 0.25), Vec3(1.0, 1.0, -1.0))

  /** It is the triangle the constructor makes of those corners, for a `unit_vector` that keeps unit vectors. */
  lemma FlatTriangleConstructed(unit: Vec3 -> Vec3)
    requires unit(Vec3(0.0, 0.0, 1.0)) == Vec3(0.0, 0.0, 1.0)
    ensures Triangles.MakeTriangle(Zero, Vec3(1.0, 0.0, 0.0), Vec3(0.0, 1.0, 0.0), Plain, unit) == FlatTriangle
  {
  }

  /** Its box is flat along z. */
  lemma FlatTriangleIsFlat()
    ensures Flat(PrimBox(TrianglePrim(FlatTriangle)))
  {
    FlatAlongZ(PrimBox(TrianglePrim(FlatTriangle)));
  }

  /** A box whose z interval is the single point 0. */
  lemma FlatAlongZ(box: Box)
    requires box.z == Interval(Fin(0.0), Fin(0.0))
    ensures Flat(box)
  {
  }

  lemma FlatTriangleValid()
    ensures ValidPrim(TrianglePrim(FlatTriangle))
  {
  }

  /** A triangle with the corner and edges of `FlatTriangle`, and a ray with the origin and direction of `Falling`. */
  predicate FallFields(tri: Triangles.Triangle, r: Ray) {
    tri.v0 == Zero && tri.edge1 == Vec3(1.0, 0.0, 0.0) && tri.edge2 == Vec3(0.0, 1.0, 0.0) &&
    r.origin == Vec3(0.1, 0.1, 0.25) && r.direction == Vec3(1.0, 1.0, -1.0)
  }

  /** The determinant of the fall is one. */
  lemma FallDeterminant(tri: Triangles.Triangle, r: Ray)
    requires FallFields(tri, r)
    ensures Triangles.Determinant(tri, r) == 1.0
  {
    assert Cross(r.direction, tri.edge2) == Cross(Vec3(1.0, 1.0, -1.0), Vec3(0.0, 1.0, 0.0));
  }

  /** The vectors the triangle test forms from the fall: `s = o - v0`, `h = d x edge2` and `q = s x edge1`. */
  lemma FallVectors(tri: Triangles.Triangle, r: Ray)
    requires FallFields(tri, r)
    ensures Sub(r.origin, tri.v0) == Vec3(0.1, 0.1, 0.25)
    ensures Cross(r.direction, tri.edge2) == Vec3(1.0, 0.0, 1.0)
    ensures Cross(Sub(r.origin, tri.v0), tri.edge1) == Vec3(0.0, 0.25, -0.1)
  {
    assert Cross(Vec3(0.1, 0.1, 0.25), Vec3(1.0, 0.0, 0.0)) == Vec3(0.0, 0.25, -0.1);
  }

  /** With a determinant of one, the first coordinate is the bare dot product `s · h`. */
  lemma UnitBaryU(tri: Triangles.Triangle, r: Ray)
    requires Triangles.Determinant(tri, r) == 1.0
    ensures !Triangles.Parallel(tri, r)
    ensures Triangles.BaryU(tri, r) == Dot(Sub(r.origin, tri.v0), Cross(r.direction, tri.edge2))
  {
    assert 1.0 / Triangles.Determinant(tri, r) == 1.0;
  }

  /** With a determinant of one, the second coordinate is the bare dot product `d · q`. */
  lemma UnitBaryV(tri: Triangles.Triangle, r: Ray)
    requires Triangles.Determinant(tri, r) == 1.0
    ensures !Triangles.Parallel(tri, r)
    ensures Triangles.BaryV(tri, r) == Dot(r.direction, Cross(Sub(r.origin, tri.v0), tri.edge1))
  {
    assert 1.0 / Triangles.Determinant(tri, r) == 1.0;
  }

  /** With a determinant of one, the distance is the bare dot product `edge2 · q`. */
  lemma UnitDistance(tri: Triangles.Triangle, r: Ray)
    requires Triangles.Determinant(tri, r) == 1.0
    ensures !Triangles.Parallel(tri, r)
    ensures Triangles.Distance(tri, r) == Dot(tri.edge2, Cross(Sub(r.origin, tri.v0), tri.edge1))
  {
    assert 1.0 / Triangles.Determinant(tri, r) == 1.0;
  }

  /** From those vectors: the fall meets the plane at t = 1/4, in the point with coordinates (0.35, 0.35). */
  lemma FallCoordinates(tri: Triangles.Triangle, r: Ray)
    requires Triangles.Determinant(tri, r) == 1.0
    requires r.direction == Vec3(1.0, 1.0, -1.0) && tri.edge2 == Vec3(0.0, 1.0, 0.0)
    requires Sub(r.origin, tri.v0) == Vec3(0.1, 0.1, 0.25)
    requires Cross(r.direction, tri.edge2) == Vec3(1.0, 0.0, 1.0)
    requires Cross(Sub(r.origin, tri.v0), tri.edge1) == Vec3(0.0, 0.25, -0.1)
    ensures !Triangles.Parallel(tri, r)
    ensures Triangles.BaryU(tri, r) == 0.35
    ensures Triangles.BaryV(tri, r) == 0.35
    ensures Triangles.Distance(tri, r) == 0.25
  {
    UnitBaryU(tri, r);
    UnitBaryV(tri, r);
    UnitDistance(tri, r);
    assert Dot(Vec3(0.1, 0.1, 0.25), Vec3(1.0, 0.0, 1.0)) == 0.35;
    assert Dot(Vec3(1.0, 1.0, -1.0), Vec3(0.0, 0.25, -0.1)) == 0.35;
    assert Dot(Vec3(0.0, 1.0, 0.0), Vec3(0.0, 0.25, -0.1)) == 0.25;
  }

  /** As a primitive, a triangle whose test accepts coordinates inside and a distance in the interval reports the hit there. */
  lemma TriangleHitAt(tri: Triangles.Triangle, r: Ray, rayT: Interval, sq: real -> real, u: real, v: real, t: real)
    requires !Triangles.Parallel(tri, r)
    requires Triangles.BaryU(tri, r) == u && Triangles.BaryV(tri, r) == v && Triangles.Distance(tri, r) == t
    requires 0.0 <= u <= 1.0 && 0.0 <= v && u + v <= 1.0 && Surrounds(rayT, t)
    ensures PrimHit(TrianglePrim(tri), r, rayT, sq).Some?
    ensures PrimHit(TrianglePrim(tri), r, rayT, sq).value.t == t
  {
  }

  /** From those vectors: the test reports the fall at t = 1/4 on an interval that surrounds it. */
  lemma FallHitFromVectors(tri: Triangles.Triangle, r: Ray, rayT: Interval, sq: real -> real)
    requires Triangles.Determinant(tri, r) == 1.0
    requires r.direction == Vec3(1.0, 1.0, -1.0) && tri.edge2 == Vec3(0.0, 1.0, 0.0)
    requires Sub(r.origin, tri.v0) == Vec3(0.1, 0.1, 0.25)
    requires Cross(r.direction, tri.edge2) == Vec3(1.0, 0.0, 1.0)
    requires Cross(Sub(r.origin, tri.v0), tri.edge1) == Vec3(0.0, 0.25, -0.1)
    requires Surrounds(rayT, 0.25)
    ensures PrimHit(TrianglePrim(tri), r, rayT, sq).Some?
    ensures PrimHit(TrianglePrim(tri), r, rayT, sq).value.t == 0.25
  {
    FallCoordinates(tri, r);
    TriangleHitAt(tri, r, rayT, sq, 0.35, 0.35, 0.25);
  }

  /** Any triangle and ray with the fields of the fall: the test reports the hit at t = 1/4. */
  lemma FallHit(tri: Triangles.Triangle, r: Ray, rayT: Interval, sq: real -> real)
    requires FallFields(tri, r) && Surrounds(rayT, 0.25)
    ensures PrimHit(TrianglePrim(tri), r, rayT, sq).Some?
    ensures PrimHit(TrianglePrim(tri), r, rayT, sq).value.t == 0.25
  {
    FallDeterminant(tri, r);
    FallVectors(tri, r);
    FallHitFromVectors(tri, r, rayT, sq);
  }

  /** The triangle test reports the fall at t = 1/4. */
  lemma FallingHitsFlatTriangle(sq: real -> real)
    ensures NonZeroDirection(Falling)
    ensures PrimHit(TrianglePrim(FlatTriangle), Falling, Visible, sq).Some?
    ensures PrimHit(TrianglePrim(FlatTriangle), Falling, Visible, sq).value.t == 0.25
  {
    FallHit(FlatTriangle, Falling, Visible, sq);
  }

  /** The constructor makes a scene of one object a node with that object as both children. */
  lemma SingletonTree(o: Prim)
    ensures BuiltFrom(Node(Leaf(o), Leaf(o), BoundsOf([o])), [o])
    ensures BoundsOf([o]) == PrimBox(o)
  {
    assert [o][..0] == [];
    UnionEmpty(PrimBox(o));
  }

  /**
   * A scene of one object whose box is flat: the list reports the object's own hit,
   * and the strict traversal of the tree built from the scene reports none.
   */
  lemma FlatSingletonMissed(o: Prim, r: Ray, rayT: Interval, sq: real -> real)
    requires NonZeroDirection(r) && Flat(PrimBox(o))
    ensures BuiltFrom(Node(Leaf(o), Leaf(o), BoundsOf([o])), [o])
    ensures ListHit([o], r, rayT, sq) == PrimHit(o, r, rayT, sq)
    ensures Traverse(Strict, Node(Leaf(o), Leaf(o), BoundsOf([o])), r, rayT, sq).None?
  {
    SingletonTree(o);
    FlatBoxNeverHit(BoundsOf([o]), r, rayT);
    SingletonList(o, r, rayT, sq);
  }

  /** The list of one object reports that object's hit. */
  lemma SingletonList(o: Prim, r: Ray, rayT: Interval, sq: real -> real)
    ensures ListHit([o], r, rayT, sq) == PrimHit(o, r, rayT, sq)
  {
    var st := ScanState(rayT.max, None);
    assert [o][1..] == [];
    assert Scan([o], r, rayT.min, sq, st) == Step(o, r, rayT.min, sq, st);
    assert rayT == Interval(rayT.min, rayT.max);
  }

  /**
   * A scene of one triangle in the plane z = 0: the list reports the hit at t = 1/4,
   * while the tree the constructor builds from it, traversed with the strict slab test,
   * reports none, since the box of the triangle is flat along z.
   */
  lemma StrictBvhMissesFlatTriangle(sq: real -> real)
    ensures var tri := TrianglePrim(FlatTriangle);
      var t := Node(Leaf(tri), Leaf(tri), BoundsOf([tri]));
      && BuiltFrom(t, [tri])
      && ListHit([tri], Falling, Visible, sq).Some?
      && ListHit([tri], Falling, Visible, sq).value.t == 0.25
      && Traverse(Strict, t, Falling, Visible, sq).None?
  {
    FlatTriangleIsFlat();
    FallingHitsFlatTriangle(sq);
    FlatSingletonMissed(TrianglePrim(FlatTriangle), Falling, Visible, sq);
  }

  /** With the closed slab test, the tree of a one-object scene reports exactly the object's hit. */
  lemma SingletonInclusive(o: Prim, r: Ray, rayT: Interval, sq: real -> real)
    requires Spheres.IsSqrt(sq) && NonZeroDirection(r) && ValidPrim(o)
    ensures Traverse(Inclusive, Node(Leaf(o), Leaf(o), BoundsOf([o])), r, rayT, sq) == PrimHit(o, r, rayT, sq)
  {
    var t := Node(Leaf(o), Leaf(o), BoundsOf([o]));
    SingletonTree(o);
    BuiltFromShape(t, [o]);
    TraverseInclusiveIsScan(t, r, rayT, sq);
    SingletonList(o, r, rayT, sq);
    ListHitAfterAdd([o], o, r, rayT, sq);
    assert Leaves(t) == [o] + [o];
  }

  /** The closed slab test keeps the hit the strict one loses: the tree finds t = 1/4 as the list does. */
  lemma InclusiveBvhFindsFlatTriangle(sq: real -> real)
    requires Spheres.IsSqrt(sq)
    ensures var tri := TrianglePrim(FlatTriangle);
      var t := Node(Leaf(tri), Leaf(tri), BoundsOf([tri]));
      && Traverse(Inclusive, t, Falling, Visible, sq).Some?
      && Traverse(Inclusive, t, Falling, Visible, sq).value.t == 0.25
  {
    FlatTriangleValid();
    FallingHitsFlatTriangle(sq);
    SingletonInclusive(TrianglePrim(FlatTriangle), Falling, Visible, sq);
  }
}
