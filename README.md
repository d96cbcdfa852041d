# A verified model of a Monte-Carlo path tracer's core

This project models the core of a small C++ path tracer. The core has seven parts:

- the axis-aligned bounding box and its slab test (`aabb.h`);
- the two primitives, the sphere (`sphere.h`) and the Möller–Trumbore triangle (`triangle.h`);
- the scene list that reports the closest hit (`hittable_list.h`);
- the bounding volume hierarchy, built by sorting along the longest axis and splitting in the middle (`bvh.h`);
- the three materials (`material.h`);
- the camera (`camera.h`): the image size, the recursive `ray_color`, the per-pixel sample loop, and the single- and multithreaded renderers.

Each module follows one header:

- `Aabb` (aabb.dfy)
- `Spheres` (sphere.dfy)
- `Triangles` (triangle.dfy)
- `HittableLists` (hittable_list.dfy)
- `Bvh` (bvh.dfy)
- `Materials` (material.dfy)
- `Cameras` (camera.dfy)

Four modules support them:

- `Vec`, `Intervals` and `Options` are small value libraries. Interval bounds are extended reals, so `+infinity` and the empty interval are representable.
- `Hittable` holds the hit record and the material type.
- `Primitives` is the closed set of objects a scene is made of.

How each kind of code is modelled:

- **Value operations** are functions with contracts. These are the box operations, the two `hit` tests and `scatter`.
- **State that the source updates in place** is classes with `modifies` clauses:
  - `hittable_list` becomes `HittableLists.HittableList`.
  - `camera` becomes `Cameras.Camera`.
  - The BVH constructor becomes `Bvh.Build`, which sorts a range of an `array` in place before it recurses.
- **Each loop** is a method with invariants. Each method is proved against a specification function:
  - the list loop against `ListHit`;
  - the bounding-box loops against `BoundsOf`;
  - the sort against `SortedBy` plus a multiset;
  - the sample loop against `Sum`;
  - the renderers against `IsPicture`.

The main results are:

- **The scene list.** The list's `hit` reports the closest hit of any object, and none exactly when nothing is hit (`ListHitIsClosest`).
- **The BVH constructor.** It builds a tree whose leaves are a permutation of the scene. Every node's box holds the boxes below it (`Build`, `BuiltFromShape`).
- **BVH traversal.** With a closed slab test, traversal reports a hit exactly when the flat list does, at the same parameter, and that hit is one object's own record (`BvhAgreesWithList`). When several objects are hit at that same parameter, the tree and the list may report different ones, because the tree scans its leaves in sorted order. With the source's strict test it still reports only genuine hits (`TraverseStrictSound`). It can, however, lose one: see Findings.
- **Sphere and triangle hits.** A sphere hit lies on the sphere and is the nearest root in the interval (`HitOnSurface`, `HitIsNearest`). A triangle hit is exactly a point of the triangle (`HitPointIsPlanePoint`, `PlanePointIsHit`). Both lie in the object's box (`HitInsideBox`).
- **Pixel colours.** In a world whose albedos and background lie in the unit cube, every pixel colour lies in the unit cube (`PixelInUnitCube`). A pixel whose samples agree gets their colour (`PixelIsMean`).
- **The row partition.** It tiles the image: every row belongs to exactly one worker (`PartitionTiles`, `RowOwnedOnce`).
- **The two renderers.** The multithreaded renderer writes every buffer cell exactly once. When every random draw is fixed by its pixel, sample and bounce, as the `Sampler` parameter fixes them, it produces the same picture as the single-threaded one (`RenderMultithreaded`, `RenderSingleThreaded`, `PictureIsUnique`). The source draws from one shared random stream instead, so this agreement is a property of the model, not a promise of the source.

The model follows the code in two places where other files of the repository disagree with it:
- `main.cpp` constructs `metal` with a fuzz argument, and a `dielectric`. `material.h` has neither: its `metal` takes only an albedo. The model follows `material.h`.
- The BVH helper `get_bounding_box_static` falls back to an empty box for objects that are neither triangles nor spheres. With the closed `Prim` type that case cannot arise.

## Model

| member | source | states |
|---|---|---|
| Aabb.CornerInterval | aabb.h:24-26 | the interval of two coordinates has finite ordered bounds and its bounds are exactly the two coordinates |
| Aabb.FromPoints | aabb.h:21-27 | the box of two corners is ordered, holds both corners, and on each axis spans from the smaller to the larger coordinate |
| Aabb.FromPointsSymmetric | aabb.h:21-27 | the corner constructor does not depend on the order of its two points |
| Aabb.AxisInterval | aabb.h:30-37 | axis 1 gives y, axis 2 gives z, and every other index gives x |
| Aabb.Union | aabb.h:94-100 | `surrounding_box` contains both of its arguments |
| Aabb.UnionLeast | aabb.h:94-100 | every box that contains both arguments contains their union, so the union is the least enclosing box |
| Aabb.UnionCommutative | aabb.h:94-100 | the union does not depend on argument order |
| Aabb.UnionAssociative | aabb.h:94-100 | the union is associative, so a fold over boxes may regroup |
| Aabb.UnionEmpty | aabb.h:16 | the default (empty) box is the identity of the union on both sides |
| Aabb.ContainsEmpty | aabb.h:16 | every box contains the default empty box |
| Aabb.LongestAxis | aabb.h:85-91 | the result is an axis in 0..2 whose size no axis exceeds, and every later axis is strictly shorter, so among axes of equal largest size the one with the highest index wins |
| Aabb.LongestAxisUnique | aabb.h:85-91 | the axis with those two properties is unique, so they characterise `longest_axis` completely |
| Aabb.Midpoint | aabb.h:106-108 | the midpoint is equidistant from both bounds and lies between them when they are ordered |
| Aabb.Center | aabb.h:103-109 | the centre is equidistant from the two faces on each axis and lies in the box when the box is ordered |
| Aabb.Window | aabb.h:42-78 | the window the three slabs leave lies within the ray interval |
| Aabb.ClipHolds | aabb.h:49-78 | a parameter inside all three slab ranges and strictly inside the ray interval stays inside the clipped window |
| Aabb.Hit | aabb.h:40-81 | the strict slab test answers true exactly when the clipped window is non-empty under `<` |
| Aabb.EmptyBoxNeverHit | aabb.h:40-81 | no ray hits the default empty box, under either comparison |
| Aabb.AlongMonotone | aabb.h:43-47 | a slab bound's ray parameter is monotone in the bound, and reversed for a negative direction, which is why the source swaps `t0` and `t1` |
| Aabb.SlabGrows | aabb.h:42-47 | a wider slab gives a wider parameter range |
| Aabb.WindowGrows | aabb.h:42-78 | a box that contains another yields a window that contains the other's |
| Aabb.HitGrowsWithBox | aabb.h:40-81 | a ray that hits a box hits every box containing it, under both comparisons |
| Aabb.WindowWithinSlabs | aabb.h:49-78 | the clipped window lies inside each of the three slab ranges |
| Aabb.FlatBoxNeverHit | aabb.h:52-80 | the strict slab test rejects every box that is flat along some axis, whatever the ray |
| Aabb.SlabsHoldPoint | aabb.h:42-78 | when `r.at(t)` lies in the box, `t` lies in each slab's range |
| Aabb.HitInclusiveAtPoint | aabb.h:40-81 | the closed slab test accepts a box that holds a point of the ray at a parameter inside the interval |
| Hittable.FaceNormal | sphere.h:41-42 | the stored normal is the outward normal or its negation, and it always points against the ray |
| Spheres.MakeSphere | sphere.h:13-14 | the constructor keeps the centre and material, and clamps a negative radius to zero |
| Spheres.RecordAt | sphere.h:38-44 | the record holds the parameter, the point `r.at(t)`, the material, and a normal facing the ray |
| Spheres.Hit | sphere.h:16-47 | returns no hit for a negative discriminant; otherwise the near root when the interval surrounds it, else the far root when it surrounds that, and no hit only when it surrounds neither |
| Spheres.BoundingBox | sphere.h:50-54 | the box is ordered, and for a sphere with a non-negative radius it spans the centre plus or minus the radius on every axis |
| Spheres.SurfaceEquation | sphere.h:18-23 | the squared distance from `r.at(t)` to the centre minus the squared radius is the quadratic `a t^2 - 2 h t + c` built from the coefficients of `hit` |
| Spheres.RootsOrdered | sphere.h:30-33 | the near root is at most the far root |
| Spheres.RootsOnSurface | sphere.h:30-36 | both roots are points on the sphere |
| Spheres.HitOnSurface | sphere.h:16-47 | every reported hit lies on the sphere |
| Spheres.HitInsideBox | sphere.h:16-54 | every hit of a valid sphere lies in its bounding box |
| Spheres.HitNarrowing | sphere.h:29-36 | lowering the upper end of the interval keeps a hit below the new end and loses every other |
| Spheres.OnlyTwoRoots | sphere.h:30-33 | every solution of the quadratic is the near or the far root |
| Spheres.HitIsNearest | sphere.h:16-47 | every point of the sphere strictly inside the interval is reported, or a hit no later than it is |
| Triangles.Min3 | triangle.h:25-30 | the minimum of three coordinates is one of them and at most each |
| Triangles.Max3 | triangle.h:25-30 | the maximum of three coordinates is one of them and at least each |
| Triangles.VertexBox | triangle.h:24-30 | the cached box is ordered, holds the three vertices, and spans their minimum to their maximum on each axis |
| Triangles.MakeTriangle | triangle.h:15-31 | the constructor keeps the vertices and material, caches consistent edges and box, and normalises the cross product of the edges |
| Triangles.BoundingBox | triangle.h:79 | a constructed triangle reports the box of its vertices |
| Triangles.Hit | triangle.h:33-76 | reports a hit exactly when the ray is not parallel, `u` is in [0,1], `v >= 0`, `u + v <= 1` and the interval surrounds `t`; the record is at `t` on the ray with a normal facing it |
| Triangles.CrossingIsPlanePoint | triangle.h:39-61 | the ray at the computed distance is the point `v0 + u edge1 + v edge2` with the computed `u` and `v` |
| Triangles.HitPointIsPlanePoint | triangle.h:33-76 | a reported hit is a point of the triangle, with barycentric coordinates inside it |
| Triangles.HitInsideBox | triangle.h:33-76 | every hit of a constructed triangle lies in its bounding box |
| Triangles.PlanePointIsHit | triangle.h:33-76 | a ray that meets the triangle at `t` strictly inside the interval gets exactly that hit reported, so no crossing is missed |
| Primitives.PrimBox | bvh.h:83-99 | each primitive reports the box its own type defines |
| Primitives.PrimHit | hittable_list.h:45 | a reported hit is strictly inside the interval and on the ray |
| Primitives.PrimHitInBox | bvh.h:83-99 | every hit of a valid primitive lies in the box the BVH asks it for |
| Primitives.PrimNarrowing | hittable_list.h:45-48 | narrowing the interval keeps a hit that precedes the new end unchanged and finds nothing the wide interval did not |
| Primitives.BoundsOfHoldsAll | bvh.h:23-27 | the surrounding box of a range contains the box of every object in it |
| Primitives.BoundsOfLeast | bvh.h:23-27 | every box containing all objects' boxes contains the surrounding box |
| Primitives.BoundsOfSameElements | bvh.h:23-27 | the surrounding box depends only on which objects occur, so sorting a range does not change it |
| HittableLists.Step | hittable_list.h:45-50 | one iteration either changes nothing or takes a record whose parameter becomes `closest_so_far`, strictly below the old value |
| HittableLists.ScanFacts | hittable_list.h:41-51 | the loop leaves its state alone when nothing is hit; otherwise it ends with one object's hit that no other hit precedes |
| HittableLists.ListHitIsClosest | hittable_list.h:37-54 | `hit` reports nothing exactly when no object is hit; otherwise it reports one object's own record, at a parameter no other object's hit precedes |
| HittableLists.ScanAppend | hittable_list.h:43-51 | looping over two lists in turn is looping over their concatenation |
| HittableLists.ListHitAfterAdd | hittable_list.h:28-54 | after `add(o)` the scene reports `o`'s hit when it is strictly earlier than the old answer or there was none, and the old answer otherwise |
| HittableLists.ListHitInBox | hittable_list.h:37-67 | a hit of a scene of valid objects lies in the scene's box |
| HittableLists.HittableList.constructor | hittable_list.h:23 | the default scene is empty |
| HittableLists.HittableList.Single | hittable_list.h:24 | the one-object constructor gives a scene of exactly that object |
| HittableLists.HittableList.Clear | hittable_list.h:26 | `clear` empties the scene |
| HittableLists.HittableList.Add | hittable_list.h:28-31 | `add` appends the object at the end |
| HittableLists.HittableList.Hit | hittable_list.h:37-54 | the loop returns true exactly when the scene has a closest hit, writes that record, and leaves the record untouched otherwise |
| HittableLists.HittableList.BoundingBox | hittable_list.h:56-67 | the loop from the first object's box computes the surrounding box of the scene, the empty box for an empty scene |
| Bvh.TreeBox | bvh.h:75 | a node reports its cached box and a leaf reports its object's box |
| Bvh.BuiltLeaves | bvh.h:18-60 | a tree built from a range has exactly the range's objects as leaves |
| Bvh.BuiltMultiplicity | bvh.h:18-60 | counted with multiplicity, the leaves hold every object of the range at least as often as the range and at most twice as often (a one-object range is both children) |
| Bvh.BuiltFromShape | bvh.h:18-60 | a built tree of valid objects has the range's objects as leaves, and every node's box contains the boxes of its children |
| Bvh.SortedSplits | bvh.h:48-58 | after sorting, every key in the left half is at most every key in the right half |
| Bvh.SwapDown | bvh.h:48-53 | one swap of the insertion step keeps the sorted prefix and the range's contents, and touches nothing outside the range |
| Bvh.GapClosed | bvh.h:48-53 | when the inserted object no longer sinks, the prefix through it is sorted |
| Bvh.Insert | bvh.h:48-53 | inserting the next object into the sorted prefix keeps that prefix sorted and permutes only the prefix |
| Bvh.SortRange | bvh.h:48-53 | the range is sorted by key on the axis; it is a permutation of the old range; the array outside is unchanged |
| Bvh.RangeBox | bvh.h:23-27 | the loop from the empty box computes the surrounding box of the range |
| Bvh.NodeBuilt | bvh.h:43-59 | sorting followed by building the two halves yields a node built from the range, and the range is still a permutation of the original |
| Bvh.Build | bvh.h:18-60 | the constructor builds a tree from the range, leaves the range a permutation of what it was, and leaves the rest of the array unchanged |
| Bvh.Split | bvh.h:43-59 | the split branch: sort the range on the longest axis, build both halves, and make a node with the range's box; the same guarantees as `Build` |
| Bvh.FromList | bvh.h:16 | the tree built from a non-empty scene is built from a permutation of its objects, and its leaves are exactly the scene's objects |
| Bvh.Traverse | bvh.h:62-73 | a reported hit is strictly inside the interval and on the ray |
| Bvh.ScanPrior | bvh.h:69-70 | a loop started with a record in hand ends with the record of the loop started without one, or keeps the record in hand |
| Bvh.MissedBoxHasNoHit | bvh.h:65-66 | when the closed test rejects a box, no valid object inside it is hit |
| Bvh.TraverseInclusiveIsScan | bvh.h:62-73 | with the closed slab test, traversal reports exactly what the list reports for its leaves in order |
| Bvh.TraverseStrictSound | bvh.h:62-73 | with the source's strict test, every reported hit is some leaf's own hit |
| Bvh.BvhAgreesWithList | bvh.h:62-73 | with the closed test, the BVH hits exactly when the scene list hits, at the same parameter, and its record is the hit of one of the scene's objects (on a tie in the parameter, not necessarily the one the list reports) |
| Bvh.FlatTriangleConstructed | triangle.h:15-31 | the counterexample triangle is what the constructor builds from its vertices |
| Bvh.FallHit | triangle.h:33-76 | any triangle with corner (0,0,0) and edges (1,0,0), (0,1,0), hit by a ray from (0.1, 0.1, 0.25) along (1, 1, -1), is reported hit at t = 1/4 on every interval that surrounds 1/4 |
| Bvh.FallingHitsFlatTriangle | triangle.h:33-76 | the counterexample ray hits the flat triangle at t = 1/4 |
| Bvh.SingletonTree | bvh.h:32-36 | a one-object range builds a node whose two children are that object, with that object's box |
| Bvh.FlatSingletonMissed | bvh.h:65-66 | the strict test makes the one-object tree of any flat object report no hit |
| Bvh.StrictBvhMissesFlatTriangle | bvh.h:65-66 | the list reports the flat triangle's hit at t = 1/4; the tree the constructor builds from that scene reports none |
| Bvh.SingletonInclusive | bvh.h:32-36 | with the closed test, the one-object tree reports exactly the object's hit |
| Bvh.InclusiveBvhFindsFlatTriangle | bvh.h:65-66 | with the closed test, the tree finds the flat triangle at t = 1/4, as the list does |
| Materials.ScatterOf | material.h:18-59 | the base material never scatters and the two others always do; attenuation is the albedo; the ray leaves the hit point; Lambertian scatters along normal plus random unit vector (the normal when that is near zero); metal mirrors the incoming direction |
| Materials.Scatter | material.h:18-59 | returns true exactly when the material scatters, then writes the attenuation and ray, and otherwise leaves both out-parameters as they were |
| Materials.ReflectIsMirror | material.h:55 | about a unit normal, reflection negates the normal component and keeps the length |
| Materials.MetalLeavesSurface | material.h:52-59 | a metal hit from the front scatters away from the surface, keeping the direction's length |
| Cameras.RayColor | camera.h:227-242 | a ray with no bounces left gathers black |
| Cameras.LastBounce | camera.h:230-242 | with one bounce left, a ray gathers the background when it escapes and black when it hits |
| Cameras.AbsorbedRayIsBlack | camera.h:235-241 | a ray with bounces left whose own hit fails to scatter gathers black |
| Cameras.PlainSurfaceAbsorbs | camera.h:235-241 | a ray with bounces left that hits a surface of the base material gathers black |
| Cameras.MulInUnitCube | camera.h:240 | attenuating a colour in the unit cube by an albedo in the unit cube stays in it |
| Cameras.RayColorInUnitCube | camera.h:227-242 | when the background and all albedos lie in the unit cube, so does the colour of every ray at every depth |
| Cameras.SumConstant | camera.h:109-114 | summing `k` samples of the same colour gives `k` times that colour |
| Cameras.SumBounded | camera.h:109-114 | summing `k` samples in the unit cube gives channels in [0, k] |
| Cameras.ScaleInverse | camera.h:63 | scaling by `1/k` undoes scaling by `k` |
| Cameras.PixelIsMean | camera.h:109-115 | with `pixel_samples_scale = 1/samples`, samples that all have one colour give the pixel that colour |
| Cameras.MeanInUnitCube | camera.h:109-115 | the mean of samples in the unit cube lies in the unit cube |
| Cameras.PixelInUnitCube | camera.h:109-115 | in a world that never brightens, every pixel colour lies in the unit cube |
| Cameras.TruncToInt | camera.h:60 | `int(x)` truncates toward zero: below `x` by less than one for `x >= 0`, above by less than one for `x < 0` |
| Cameras.HeightFor | camera.h:60-61 | the height is the truncated quotient of width by aspect ratio, or 1 when that is below 1 |
| Cameras.ThreadCount | camera.h:139-141 | the worker count is the reported hardware count, or 4 when that is 0, and always at least 1 |
| Cameras.PartitionTiles | camera.h:173-180 | the workers' row ranges start at 0, each ends where the next starts, the last ends at the height, and none runs backwards, even with more workers than rows |
| Cameras.OwnerHoldsRow | camera.h:173-180 | every row lies in its owner's range |
| Cameras.OthersMissRow | camera.h:173-180 | no other worker's range holds a row |
| Cameras.RowOwnedOnce | camera.h:173-180 | a row lies in worker `t`'s range exactly when `t` is its owner |
| Cameras.Camera.constructor | camera.h:17-21 | the public parameters start at aspect 1, width 100, 10 samples, depth 10 and multithreading on |
| Cameras.Camera.Initialize | camera.h:58-63 | sets the height from the width and aspect ratio and the sample scale to `1/samples`, leaving the public parameters alone |
| Cameras.Camera.SamplePixel | camera.h:109-115 | the sample loop yields the scaled sum of the pixel's sample colours |
| Cameras.Camera.RenderRow | camera.h:107-116 | one row holds every pixel's colour, left to right |
| Cameras.Camera.RenderRows | camera.h:104-117 | the picture holds every pixel's colour, row by row |
| Cameras.Camera.RenderSingleThreaded | camera.h:97-120 | after initialising, the single-threaded renderer writes the whole picture |
| Cameras.Camera.PictureIsUnique | camera.h:32-42 | a picture is determined by the camera, the world and the sampler, so with draws indexed by pixel, sample and bounce both renderers write the same one |
| Cameras.Camera.RenderBufferRow | camera.h:150-159 | the inner loop of a worker writes the pixels of its row into the buffer, once each, and no other cell |
| Cameras.Camera.RenderChunk | camera.h:146-169 | a worker writes every pixel of its rows into the buffer, once each, and no other cell |
| Cameras.Camera.RunWorkers | camera.h:172-186 | after all the workers, every buffer cell holds its pixel and was written exactly once |
| Cameras.Camera.RenderBuffered | camera.h:131-195 | the buffer written out row by row is the whole picture, every cell written once |
| Cameras.Camera.RenderMultithreaded | camera.h:124-198 | after initialising, the multithreaded renderer writes the whole picture and every cell exactly once |
| Cameras.Camera.Render | camera.h:32-42 | `render` initialises and writes the whole picture, whichever renderer the flag selects |

## Left out

- Floating point: the model computes on exact reals. Rounding, NaN and IEEE infinities from division by zero are not modelled.
- Aabb.Hit: requires every direction component to be non-zero. The source divides by each component, and relies on IEEE infinities for axis-parallel rays.
- Spheres.Hit: answers "no hit" directly for a zero direction. The source divides by `a == 0` there, and every candidate root is then infinite or NaN.
- `std::sqrt` is the parameter `sq`, characterised by `Spheres.IsSqrt`.
- `unit_vector` is the parameter `unit` of `Triangles.MakeTriangle`.
- `random_unit_vector` is the parameter of `Materials.ScatterOf`.
- Camera rays: `get_ray`, `sample_square` and `defocus_disk_sample` are the parameter `Sampler.ray`. The field of view, basis vectors, viewport and defocus disk computed in `initialize` (camera.h:65-94) are not modelled.
- Cameras.RayColor: the sky gradient of an escaping ray (camera.h:244-246) is the parameter `World.background`. It needs `unit_vector`, which is not part of this model.
- Bvh.Build: requires a non-empty range. On an empty range the source takes the split branch with `mid == start` and recurses on the same empty range without end.
- Bvh.FromList: requires a non-empty scene, for the same reason.
- Cameras.Camera.PictureIsUnique: holds because `Sampler` makes every random draw a function of the pixel, the sample and the bounce. The source draws from one shared random stream, which the two renderers consume in different orders (the threaded one concurrently), so the source's two renderers need not produce the same picture. The order of draws from that stream is not modelled.
- Bvh.SortRange: an insertion sort, which keeps equal keys in their original order. `std::sort` leaves the order of equal keys unspecified, so the tie order, and with it the tree shape, may differ from the source's. The contracts allow any sorted permutation, and `BuiltFrom` accepts every such tree.
- Bvh.Tree: the tree is a value. The sharing of children through `shared_ptr` (a one-object node holds the same object twice) is not visible.
- Threads: `std::thread`, `join`, the atomic line counter and the mutex-guarded progress log (camera.h:135-186) are modelled sequentially. Workers run one after another on their rows. Their writes go to disjoint rows, which `RowOwnedOnce` and the write counts prove.
- Output: the PPM header, `write_color` and the progress messages are not modelled. The picture is returned as a sequence of rows.
- Cameras.Camera.Initialize: requires a non-zero aspect ratio and sample count. The source divides by both and would compute an infinite or undefined height and scale.
- Cameras.HeightFor: the overflow of `int(...)` for a quotient beyond the range of `int` is not modelled.
- Cameras.Camera.RenderRow: requires a non-negative width, as do the renderers. With a negative width the single-threaded loop writes empty rows, and the buffered renderer cannot allocate its buffer.
- Cameras.ThreadCount: the worker count is the parameter `reported`, standing for `std::thread::hardware_concurrency()`.
- Materials: `dielectric` and metal fuzz are used by `main.cpp` but defined in no core file, so they are not part of this model.
- vec3.h, ray.h, interval.h, hittable.h and color.h are not part of this model. The vector, interval and hit-record types are defined here in the obvious way.

## Findings

| source | as written | input that shows it | evidently intended | confidence | as-written member | corrected member |
|---|---|---|---|---|---|---|
| aabb.h:52-80, bvh.h:65 | the slab test rejects a box when `tmin >= tmax`, so a box with zero extent on any axis is never hit; the BVH then skips every object whose box is flat, such as a triangle lying in an axis-aligned plane | a scene of the one triangle (0,0,0), (1,0,0), (0,1,0) with the ray from (0.1, 0.1, 0.25) along (1, 1, -1) on (0.001, +inf): the list reports the hit at t = 0.25, the BVH built from the scene reports none | the BVH reports the same hits as the list, e.g. by accepting `tmin <= tmax` (or padding flat boxes) | not executed | Bvh.StrictBvhMissesFlatTriangle | Bvh.InclusiveBvhFindsFlatTriangle |

The general form of both halves:
- `Aabb.FlatBoxNeverHit` proves that the strict test rejects every flat box.
- `Bvh.BvhAgreesWithList` proves that the closed test (`Aabb.HitInclusive`) makes the BVH report a hit exactly when the list does, at the same parameter and with one object's own record, for every scene of valid objects.

The scene in `main.cpp` has no axis-aligned flat triangles, so the rendered image there is not affected.
