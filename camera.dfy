// The camera (camera.h): the image size and sample scale fixed by `initialize`, the
// recursive `ray_color`, the per-pixel sample loop, and the two renderers. The
// multithreaded renderer is modelled sequentially: its workers run one after the other
// on the rows the static partition gives them. The world, the colour of an escaping
// ray, and every random draw are parameters.
module Cameras {
  import opened Vec
  import opened Intervals
  import opened Options
  import opened Hittable
  import opened Materials

  /** The scene as the camera sees it: `world.hit`, and the colour of a ray that escapes. */
  datatype World = World(hit: (Ray, Interval) -> Option<HitRecord>, background: Ray -> Color)

  /**
   * The random choices of one render: the ray `get_ray(i, j)` returns for sample `s`
   * of pixel (i, j), and the vector `random_unit_vector` returns for that sample at
   * the bounce with `depth` bounces left.
   */
  datatype Sampler = Sampler(ray: (int, int, int) -> Ray, unit: (int, int, int, int) -> Vec3)

  // ---------------------------------------------------------------------------
  // ray_color

  /**
   * `ray_color`: black once the bounces are used up; the escaping colour when the
   * world is missed on `(0.001, +inf)`; black when the surface absorbs the ray;
   * otherwise the attenuation times the colour of the scattered ray, one bounce fewer.
   */
  function RayColor(r: Ray, depth: int, world: World, unit: int -> Vec3): (c: Color)
    ensures depth <= 0 ==> c == Zero
    decreases depth
  {
    if depth <= 0 then Zero
    else
      match world.hit(r, Visible)
      case None => world.background(r)
      case Some(rec) =>
        match ScatterOf(rec.mat, r, rec, unit(depth))
        case None => Zero
        case Some(s) => Mul(s.attenuation, RayColor(s.ray, depth - 1, world, unit))
  }

  predicate InUnitCube(c: Color) {
    0.0 <= c.x <= 1.0 && 0.0 <= c.y <= 1.0 && 0.0 <= c.z <= 1.0
  }

  /** A material that reflects no more of any channel than it receives. */
  predicate Dim(m: Material) {
    m.Plain? || InUnitCube(m.albedo)
  }

  /** Escaping rays carry colours in the unit cube and every surface hit is dim. */
  ghost predicate NeverBrightens(world: World) {
    && (forall r :: InUnitCube(world.background(r)))
    && (forall r, i :: world.hit(r, i).Some? ==> Dim(world.hit(r, i).value.mat))
  }

  lemma ProductInUnit(a: real, b: real)
    requires 0.0 <= a <= 1.0 && 0.0 <= b <= 1.0
    ensures 0.0 <= a * b <= 1.0
  {
    assert b - a * b == (1.0 - a) * b;
    NonNegativeProduct(1.0 - a, b);
    NonNegativeProduct(a, b);
  }

  lemma MulInUnitCube(a: Color, b: Color)
    requires InUnitCube(a) && InUnitCube(b)
    ensures InUnitCube(Mul(a, b))
  {
    ProductInUnit(a.x, b.x);
    ProductInUnit(a.y, b.y);
    ProductInUnit(a.z, b.z);
  }

  /** In a world that never brightens, the colour of every ray stays in the unit cube. */
  lemma {:induction false} RayColorInUnitCube(r: Ray, depth: int, world: World, unit: int -> Vec3)
    requires NeverBrightens(world)
    ensures InUnitCube(RayColor(r, depth, world, unit))
    decreases depth
  {
    if depth > 0 {
      var h := world.hit(r, Visible);
      if h.Some? {
        var s := ScatterOf(h.value.mat, r, h.value, unit(depth));
        if s.Some? {
          assert Dim(h.value.mat);
          RayColorInUnitCube(s.value.ray, depth - 1, world, unit);
          MulInUnitCube(s.value.attenuation, RayColor(s.value.ray, depth - 1, world, unit));
        }
      }
    }
  }

  /**
   * With one bounce left, no scattered ray adds light: a ray that hits anything is
   * black and a ray that escapes has the escaping colour.
   */
  lemma LastBounce(r: Ray, world: World, unit: int -> Vec3)
    ensures RayColor(r, 1, world, unit) == if world.hit(r, Visible).Some? then Zero else world.background(r)
  {
    var h := world.hit(r, Visible);
    if h.Some? {
      var s := ScatterOf(h.value.mat, r, h.value, unit(1));
      if s.Some? {
        assert RayColor(s.value.ray, 0, world, unit) == Zero;
        assert Mul(s.value.attenuation, Zero) == Zero;
      }
    }
  }

  /** A ray whose hit does not scatter gathers black, whatever bounces it has left. */
  lemma AbsorbedRayIsBlack(r: Ray, depth: int, world: World, unit: int -> Vec3)
    requires depth > 0 && world.hit(r, Visible).Some?
    requires ScatterOf(world.hit(r, Visible).value.mat, r, world.hit(r, Visible).value, unit(depth)).None?
    ensures RayColor(r, depth, world, unit) == Zero
  {
  }

  /** In particular, a ray that hits a plain surface is black. */
  lemma PlainSurfaceAbsorbs(r: Ray, depth: int, world: World, unit: int -> Vec3)
    requires depth > 0 && world.hit(r, Visible).Some? && world.hit(r, Visible).value.mat.Plain?
    ensures RayColor(r, depth, world, unit) == Zero
  {
    AbsorbedRayIsBlack(r, depth, world, unit);
  }

  // ---------------------------------------------------------------------------
  // Pixels

  /** The colour of sample `s` of pixel (i, j). */
  function SampleColor(depth: int, world: World, sampler: Sampler, i: int, j: int, s: int): Color {
    RayColor(sampler.ray(i, j, s), depth, world, d => sampler.unit(i, j, s, d))
  }

  /** The colours of the successive samples of pixel (i, j). */
  function SamplesOf(depth: int, world: World, sampler: Sampler, i: int, j: int): int -> Color {
    s => SampleColor(depth, world, sampler, i, j, s)
  }

  /** The sum `pixel_color` holds after the first `k` samples of `colors`. */
  function Sum(colors: int -> Color, k: int): Color
    decreases k
  {
    if k <= 0 then Zero else Add(Sum(colors, k - 1), colors(k - 1))
  }

  /** The colour of pixel (i, j): its sample sum times `pixel_samples_scale`. */
  function Pixel(scale: real, samples: int, depth: int, world: World, sampler: Sampler, i: int, j: int): Color {
    Scale(scale, Sum(SamplesOf(depth, world, sampler, i, j), samples))
  }

  /** Samples that all have the colour `c` sum to `k` times `c`. */
  lemma {:induction false} SumConstant(colors: int -> Color, k: int, c: Color)
    requires k >= 0
    requires forall s :: 0 <= s < k ==> colors(s) == c
    ensures Sum(colors, k) == Scale(k as real, c)
    decreases k
  {
    if k > 0 {
      SumConstant(colors, k - 1, c);
      assert (k - 1) as real + 1.0 == k as real;
    }
  }

  /** Each channel of a sum of `k` colours in the unit cube lies in `[0, k]`. */
  lemma {:induction false} SumBounded(colors: int -> Color, k: int)
    requires k >= 0 && forall s :: 0 <= s < k ==> InUnitCube(colors(s))
    ensures var sum := Sum(colors, k);
      0.0 <= sum.x <= k as real && 0.0 <= sum.y <= k as real && 0.0 <= sum.z <= k as real
    decreases k
  {
    if k > 0 {
      SumBounded(colors, k - 1);
      assert (k - 1) as real + 1.0 == k as real;
    }
  }

  /** The pixel is the mean of its samples: samples that all agree give their colour. */
  lemma PixelIsMean(samples: int, depth: int, world: World, sampler: Sampler, i: int, j: int, c: Color)
    requires samples >= 1
    requires forall s :: 0 <= s < samples ==> SampleColor(depth, world, sampler, i, j, s) == c
    ensures Pixel(1.0 / samples as real, samples, depth, world, sampler, i, j) == c
  {
    var colors := SamplesOf(depth, world, sampler, i, j);
    SumConstant(colors, samples, c);
    ScaleInverse(samples as real, c);
  }

  lemma ScaleInverse(k: real, c: Color)
    requires k != 0.0
    ensures Scale(1.0 / k, Scale(k, c)) == c
  {
    var m := 1.0 / k;
    assert m * k == 1.0;
    assert m * (k * c.x) == (m * k) * c.x && m * (k * c.y) == (m * k) * c.y && m * (k * c.z) == (m * k) * c.z;
  }

  lemma ScaledDown(x: real, k: real)
    requires k >= 1.0 && 0.0 <= x <= k
    ensures 0.0 <= (1.0 / k) * x <= 1.0
  {
    assert (1.0 / k) * k == 1.0;
    assert (1.0 / k) * k - (1.0 / k) * x == (1.0 / k) * (k - x);
  }

  /** The mean of `k` colours in the unit cube lies in the unit cube. */
  lemma MeanInUnitCube(colors: int -> Color, k: int)
    requires k >= 1 && forall s :: 0 <= s < k ==> InUnitCube(colors(s))
    ensures InUnitCube(Scale(1.0 / k as real, Sum(colors, k)))
  {
    SumBounded(colors, k);
    ScaledColorDown(Sum(colors, k), k as real);
  }

  lemma ScaledColorDown(c: Color, k: real)
    requires k >= 1.0 && 0.0 <= c.x <= k && 0.0 <= c.y <= k && 0.0 <= c.z <= k
    ensures InUnitCube(Scale(1.0 / k, c))
  {
    ScaledDown(c.x, k);
    ScaledDown(c.y, k);
    ScaledDown(c.z, k);
  }

  /** In a world that never brightens, every pixel lies in the unit cube. */
  lemma PixelInUnitCube(samples: int, depth: int, world: World, sampler: Sampler, i: int, j: int)
    requires samples >= 1 && NeverBrightens(world)
    ensures InUnitCube(Pixel(1.0 / samples as real, samples, depth, world, sampler, i, j))
  {
    var colors := SamplesOf(depth, world, sampler, i, j);
    forall s | 0 <= s < samples
      ensures InUnitCube(colors(s))
    {
      RayColorInUnitCube(sampler.ray(i, j, s), depth, world, d => sampler.unit(i, j, s, d));
    }
    MeanInUnitCube(colors, samples);
  }

  // ---------------------------------------------------------------------------
  // The image size and the row partition

  /** `int(x)`: conversion of a double to an integer, truncating toward zero. */
  function TruncToInt(x: real): (n: int)
    ensures 0.0 <= x ==> n as real <= x < n as real + 1.0
    ensures x < 0.0 ==> n as real - 1.0 < x <= n as real
  {
    if x >= 0.0 then x.Floor else -((-x).Floor)
  }

  /** `image_height`: the width over the aspect ratio, truncated, and at least 1. */
  function HeightFor(width: int, aspect: real): (h: int)
    requires aspect != 0.0
    ensures h >= 1
    ensures h == TruncToInt(width as real / aspect) || (h == 1 && TruncToInt(width as real / aspect) < 1)
  {
    var q := TruncToInt(width as real / aspect);
    if q < 1 then 1 else q
  }

  /** The number of workers: what the hardware reports, or 4 when it reports 0. */
  function ThreadCount(reported: int): (n: int)
    requires reported >= 0
    ensures n >= 1
    ensures reported > 0 ==> n == reported
    ensures reported == 0 ==> n == 4
  {
    if reported == 0 then 4 else reported
  }

  /** The first row of worker `t`. */
  function RowStart(t: int, rowsPerThread: int): int {
    t * rowsPerThread
  }

  /** The row after the last one of worker `t`: the last worker takes the remainder. */
  function RowEnd(t: int, n: int, height: int, rowsPerThread: int): int {
    if t == n - 1 then height else (t + 1) * rowsPerThread
  }

  lemma MulMonotone(a: int, b: int, c: int)
    requires a <= b && c >= 0
    ensures a * c <= b * c
  {
  }

  /**
   * With `rows_per_thread = image_height / num_threads` the ranges tile the image: the
   * first starts at 0, each ends where the next starts, the last ends at the height,
   * and none runs backwards, including when there are more workers than rows.
   */
  lemma PartitionTiles(height: int, n: int)
    requires height >= 0 && n >= 1
    ensures var rpt := height / n;
      && RowStart(0, rpt) == 0
      && RowEnd(n - 1, n, height, rpt) == height
      && (forall t :: 0 <= t < n - 1 ==> RowEnd(t, n, height, rpt) == RowStart(t + 1, rpt))
      && (forall t :: 0 <= t < n ==> 0 <= RowStart(t, rpt) <= RowEnd(t, n, height, rpt) <= height)
  {
    var rpt := height / n;
    assert n * rpt <= height;
    forall t | 0 <= t < n
      ensures 0 <= RowStart(t, rpt) <= RowEnd(t, n, height, rpt) <= height
    {
      MulMonotone(t, n - 1, rpt);
      MulMonotone(n - 1, n, rpt);
      if t < n - 1 {
        MulMonotone(t + 1, n, rpt);
      }
    }
  }

  /** The worker that renders row `j`. */
  function Owner(j: int, n: int, height: int): int
    requires n >= 1 && height >= 0
  {
    var rpt := height / n;
    if rpt == 0 then n - 1 else if j / rpt < n - 1 then j / rpt else n - 1
  }

  /** The quotient of `j` by `d` brackets `j` between two multiples of `d`. */
  lemma DivBounds(j: int, d: int)
    requires j >= 0 && d > 0
    ensures (j / d) * d <= j < (j / d) * d + d
  {
    assert j == (j / d) * d + j % d;
  }

  /** The owner's range holds the row. */
  lemma OwnerHoldsRow(j: int, n: int, height: int)
    requires height >= 0 && n >= 1 && 0 <= j < height
    ensures var rpt := height / n; var o := Owner(j, n, height);
      0 <= o < n && RowStart(o, rpt) <= j < RowEnd(o, n, height, rpt)
  {
    CappedHoldsRow(j, n, height, height / n);
  }

  /** For any range length, the owner computed from it holds the row. */
  lemma CappedHoldsRow(j: int, n: int, height: int, rpt: int)
    requires n >= 1 && 0 <= j < height && rpt >= 0
    ensures var o := if rpt == 0 then n - 1 else if j / rpt < n - 1 then j / rpt else n - 1;
      0 <= o < n && RowStart(o, rpt) <= j < RowEnd(o, n, height, rpt)
  {
    if rpt > 0 {
      QuotientHoldsRow(j, n, height, rpt);
    } else {
      assert (n - 1) * rpt == 0;
    }
  }

  /** For any positive range length, the quotient's range (capped at the last) holds the row. */
  lemma QuotientHoldsRow(j: int, n: int, height: int, rpt: int)
    requires n >= 1 && 0 <= j < height && rpt > 0
    ensures var o := if j / rpt < n - 1 then j / rpt else n - 1;
      0 <= o < n && RowStart(o, rpt) <= j < RowEnd(o, n, height, rpt)
  {
    var q := j / rpt;
    DivBounds(j, rpt);
    if q < n - 1 {
      assert (q + 1) * rpt == q * rpt + rpt;
    } else {
      MulMonotone(n - 1, q, rpt);
    }
  }

  /** No range but the owner's holds the row. */
  lemma OthersMissRow(j: int, t: int, n: int, height: int)
    requires height >= 0 && n >= 1 && 0 <= j < height && 0 <= t < n && t != Owner(j, n, height)
    ensures var rpt := height / n;
      !(RowStart(t, rpt) <= j < RowEnd(t, n, height, rpt))
  {
    CappedMissesRow(j, t, n, height, height / n);
  }

  /** For any range length, a worker other than the owner computed from it misses the row. */
  lemma CappedMissesRow(j: int, t: int, n: int, height: int, rpt: int)
    requires n >= 1 && 0 <= j < height && 0 <= t < n && rpt >= 0
    requires t != if rpt == 0 then n - 1 else if j / rpt < n - 1 then j / rpt else n - 1
    ensures !(RowStart(t, rpt) <= j < RowEnd(t, n, height, rpt))
  {
    if rpt == 0 {
      assert t < n - 1;
      assert (t + 1) * rpt == 0;
    } else {
      var q := j / rpt;
      var o := if q < n - 1 then q else n - 1;
      DivBounds(j, rpt);
      if t < o {
        MulMonotone(t + 1, o, rpt);
        MulMonotone(o, q, rpt);
      } else {
        assert o == q && q + 1 <= t;
        MulMonotone(q + 1, t, rpt);
        assert (q + 1) * rpt == q * rpt + rpt;
      }
    }
  }


  /** Row `j` of the image lies in the range of worker `t` exactly when `t` is its owner. */
  lemma RowOwnedOnce(j: int, t: int, n: int, height: int)
    requires height >= 0 && n >= 1 && 0 <= j < height && 0 <= t < n
    ensures var rpt := height / n;
      RowStart(t, rpt) <= j < RowEnd(t, n, height, rpt) <==> t == Owner(j, n, height)
  {
    OwnerHoldsRow(j, n, height);
    if t != Owner(j, n, height) {
      OthersMissRow(j, t, n, height);
    }
  }

  // ---------------------------------------------------------------------------
  // The camera

  /** The camera's integer and scale parameters; the viewing geometry is not modelled. */
  class Camera {
    var aspectRatio: real
    var imageWidth: int
    var samplesPerPixel: int
    var maxDepth: int
    var useMultithreading: bool
    var imageHeight: int
    var pixelSamplesScale: real

    /** The defaults of the public parameters. */
    constructor ()
      ensures aspectRatio == 1.0 && imageWidth == 100 && samplesPerPixel == 10 && maxDepth == 10
      ensures useMultithreading
    {
      aspectRatio := 1.0;
      imageWidth := 100;
      samplesPerPixel := 10;
      maxDepth := 10;
      useMultithreading := true;
    }

    /** `initialize`: the height from the width and aspect ratio, and `1 / samples_per_pixel`. */
    method Initialize()
      requires aspectRatio != 0.0 && samplesPerPixel != 0
      modifies this
      ensures Initialized()
      ensures aspectRatio == old(aspectRatio) && imageWidth == old(imageWidth)
      ensures samplesPerPixel == old(samplesPerPixel) && maxDepth == old(maxDepth)
      ensures useMultithreading == old(useMultithreading)
    {
      imageHeight := TruncToInt(imageWidth as real / aspectRatio);
      imageHeight := if imageHeight < 1 then 1 else imageHeight;
      pixelSamplesScale := 1.0 / samplesPerPixel as real;
    }

    /** The derived fields agree with the parameters, as `initialize` leaves them. */
    predicate Initialized()
      reads this
    {
      && aspectRatio != 0.0 && samplesPerPixel != 0
      && imageHeight == HeightFor(imageWidth, aspectRatio)
      && pixelSamplesScale == 1.0 / samplesPerPixel as real
    }

    /**
     * `render`: the multithreaded renderer when `use_multithreading` is set, the
     * single-threaded one otherwise. Either way the same picture comes out.
     */
    method Render(world: World, sampler: Sampler, reported: int) returns (out: seq<seq<Color>>)
      requires aspectRatio != 0.0 && samplesPerPixel != 0 && imageWidth >= 0 && reported >= 0
      modifies this
      ensures Initialized()
      ensures aspectRatio == old(aspectRatio) && imageWidth == old(imageWidth)
      ensures samplesPerPixel == old(samplesPerPixel) && maxDepth == old(maxDepth)
      ensures useMultithreading == old(useMultithreading)
      ensures IsPicture(out, world, sampler)
    {
      if useMultithreading {
        ghost var counts;
        out, counts := RenderMultithreaded(world, sampler, reported);
      } else {
        out := RenderSingleThreaded(world, sampler);
      }
    }

    /** The colour of pixel (i, j) under the current parameters. */
    function PixelColor(world: World, sampler: Sampler, i: int, j: int): Color
      reads this
    {
      Pixel(pixelSamplesScale, samplesPerPixel, maxDepth, world, sampler, i, j)
    }

    /** The sample loop of one pixel, scaled by `pixel_samples_scale`. */
    method SamplePixel(world: World, sampler: Sampler, i: int, j: int) returns (c: Color)
      ensures c == PixelColor(world, sampler, i, j)
    {
      ghost var colors := SamplesOf(maxDepth, world, sampler, i, j);
      var pixelColor := Zero;
      var sample := 0;
      while sample < samplesPerPixel
        invariant sample <= samplesPerPixel || sample == 0
        invariant pixelColor == Sum(colors, sample)
      {
        assert colors(sample) == RayColor(sampler.ray(i, j, sample), maxDepth, world, d => sampler.unit(i, j, sample, d));
        pixelColor := Add(pixelColor, RayColor(sampler.ray(i, j, sample), maxDepth, world, d => sampler.unit(i, j, sample, d)));
        sample := sample + 1;
      }
      assert pixelColor == Sum(colors, samplesPerPixel);
      c := Scale(pixelSamplesScale, pixelColor);
    }

    /** Row `j` of the picture: every pixel from left to right. */
    method RenderRow(world: World, sampler: Sampler, j: int) returns (row: seq<Color>)
      requires imageWidth >= 0
      ensures |row| == imageWidth
      ensures forall x :: 0 <= x < imageWidth ==> row[x] == PixelColor(world, sampler, x, j)
    {
      row := [];
      var i := 0;
      while i < imageWidth
        invariant 0 <= i <= imageWidth && |row| == i
        invariant forall x :: 0 <= x < i ==> row[x] == PixelColor(world, sampler, x, j)
      {
        var c := SamplePixel(world, sampler, i, j);
        row := row + [c];
        i := i + 1;
      }
    }

    /**
     * `render_single_threaded`: initialize, then every row top to bottom, every pixel
     * left to right; `out` is the sequence of rows written to the output.
     */
    method RenderSingleThreaded(world: World, sampler: Sampler) returns (out: seq<seq<Color>>)
      requires aspectRatio != 0.0 && samplesPerPixel != 0 && imageWidth >= 0
      modifies this
      ensures Initialized()
      ensures aspectRatio == old(aspectRatio) && imageWidth == old(imageWidth)
      ensures samplesPerPixel == old(samplesPerPixel) && maxDepth == old(maxDepth)
      ensures useMultithreading == old(useMultithreading)
      ensures IsPicture(out, world, sampler)
    {
      Initialize();
      out := RenderRows(world, sampler);
    }

    /** The two loops of `render_single_threaded`: every row top to bottom. */
    method RenderRows(world: World, sampler: Sampler) returns (out: seq<seq<Color>>)
      requires imageHeight >= 0 && imageWidth >= 0
      ensures IsPicture(out, world, sampler)
    {
      out := [];
      var j := 0;
      while j < imageHeight
        invariant 0 <= j <= imageHeight && |out| == j
        invariant forall y :: 0 <= y < j ==> |out[y]| == imageWidth
        invariant forall y, x :: 0 <= y < j && 0 <= x < imageWidth ==> out[y][x] == PixelColor(world, sampler, x, y)
      {
        var row := RenderRow(world, sampler, j);
        out := out + [row];
        j := j + 1;
      }
    }

    /** `out` holds the colour of every pixel, one row per image row. */
    ghost predicate IsPicture(out: seq<seq<Color>>, world: World, sampler: Sampler)
      reads this
    {
      && |out| == imageHeight
      && (forall y :: 0 <= y < |out| ==> |out[y]| == imageWidth)
      && (forall y, x :: 0 <= y < |out| && 0 <= x < |out[y]| ==> out[y][x] == PixelColor(world, sampler, x, y))
    }

    /** The picture is determined by the camera and the world: both renderers write the same one. */
    lemma PictureIsUnique(a: seq<seq<Color>>, b: seq<seq<Color>>, world: World, sampler: Sampler)
      requires IsPicture(a, world, sampler) && IsPicture(b, world, sampler)
      ensures a == b
    {
      forall y | 0 <= y < |a|
        ensures a[y] == b[y]
      {
        assert forall x :: 0 <= x < |a[y]| ==> a[y][x] == b[y][x];
      }
    }

    /** `counts` has one entry per cell of the image. */
    ghost predicate Shaped(counts: seq<seq<int>>)
      reads this
    {
      |counts| == imageHeight && forall y :: 0 <= y < |counts| ==> |counts[y]| == imageWidth
    }

    /**
     * The inner loop of `render_chunk` for row `j`: renders its pixels into the buffer
     * and nothing else; `counts` counts the writes to each cell.
     */
    method RenderBufferRow(buffer: array2<Color>, j: int, world: World, sampler: Sampler,
                           ghost counts: seq<seq<int>>) returns (ghost counts': seq<seq<int>>)
      requires buffer.Length0 == imageHeight && buffer.Length1 == imageWidth
      requires 0 <= j < imageHeight && Shaped(counts)
      modifies buffer
      ensures Shaped(counts')
      ensures forall y, x :: 0 <= y < imageHeight && 0 <= x < imageWidth ==>
        buffer[y, x] == if y == j then PixelColor(world, sampler, x, y) else old(buffer[y, x])
      ensures forall y, x :: 0 <= y < imageHeight && 0 <= x < imageWidth ==>
        counts'[y][x] == counts[y][x] + if y == j then 1 else 0
    {
      counts' := counts;
      var i := 0;
      while i < imageWidth
        invariant 0 <= i <= imageWidth && Shaped(counts')
        invariant forall y, x :: 0 <= y < imageHeight && 0 <= x < imageWidth ==>
          buffer[y, x] == if y == j && x < i then PixelColor(world, sampler, x, y) else old(buffer[y, x])
        invariant forall y, x :: 0 <= y < imageHeight && 0 <= x < imageWidth ==>
          counts'[y][x] == counts[y][x] + if y == j && x < i then 1 else 0
      {
        var c := SamplePixel(world, sampler, i, j);
        buffer[j, i] := c;
        counts' := counts'[j := counts'[j][i := counts'[j][i] + 1]];
        i := i + 1;
      }
    }

    /**
     * `render_chunk(start_row, end_row)`: renders the rows of `[startRow, endRow)` into
     * the buffer and nothing else; `counts` counts the writes to each cell.
     */
    method RenderChunk(buffer: array2<Color>, startRow: int, endRow: int, world: World, sampler: Sampler,
                       ghost counts: seq<seq<int>>) returns (ghost counts': seq<seq<int>>)
      requires buffer.Length0 == imageHeight && buffer.Length1 == imageWidth
      requires 0 <= startRow <= endRow <= imageHeight && Shaped(counts)
      modifies buffer
      ensures Shaped(counts')
      ensures forall y, x :: 0 <= y < imageHeight && 0 <= x < imageWidth ==>
        buffer[y, x] == if startRow <= y < endRow then PixelColor(world, sampler, x, y) else old(buffer[y, x])
      ensures forall y, x :: 0 <= y < imageHeight && 0 <= x < imageWidth ==>
        counts'[y][x] == counts[y][x] + if startRow <= y < endRow then 1 else 0
    {
      counts' := counts;
      var j := startRow;
      while j < endRow
        invariant startRow <= j <= endRow && Shaped(counts')
        invariant forall y, x :: 0 <= y < imageHeight && 0 <= x < imageWidth ==>
          buffer[y, x] == if startRow <= y < j then PixelColor(world, sampler, x, y) else old(buffer[y, x])
        invariant forall y, x :: 0 <= y < imageHeight && 0 <= x < imageWidth ==>
          counts'[y][x] == counts[y][x] + if startRow <= y < j then 1 else 0
      {
        counts' := RenderBufferRow(buffer, j, world, sampler, counts');
        j := j + 1;
      }
    }

    /**
     * The launch loop of `render_multithreaded`, run in order: worker `t` renders the
     * rows `[t * rows_per_thread, end_row)`, the last one up to the height. Afterwards
     * every cell holds its pixel and was written exactly once.
     */
    method RunWorkers(buffer: array2<Color>, numThreads: int, world: World, sampler: Sampler,
                      ghost counts0: seq<seq<int>>) returns (ghost counts: seq<seq<int>>)
      requires buffer.Length0 == imageHeight && buffer.Length1 == imageWidth && imageHeight >= 0
      requires numThreads >= 1 && Shaped(counts0)
      requires forall y, x :: 0 <= y < imageHeight && 0 <= x < imageWidth ==> counts0[y][x] == 0
      modifies buffer
      ensures Shaped(counts)
      ensures forall y, x :: 0 <= y < imageHeight && 0 <= x < imageWidth ==>
        buffer[y, x] == PixelColor(world, sampler, x, y) && counts[y][x] == 1
    {
      counts := counts0;
      var rowsPerThread := imageHeight / numThreads;
      PartitionTiles(imageHeight, numThreads);
      var t := 0;
      ghost var done := 0;
      while t < numThreads
        invariant 0 <= t <= numThreads && Shaped(counts)
        invariant done == if t < numThreads then RowStart(t, rowsPerThread) else imageHeight
        invariant 0 <= done <= imageHeight
        invariant forall y, x :: 0 <= y < imageHeight && 0 <= x < imageWidth ==>
          if y < done then buffer[y, x] == PixelColor(world, sampler, x, y) && counts[y][x] == 1
          else counts[y][x] == 0
      {
        var startRow := t * rowsPerThread;
        var endRow := if t == numThreads - 1 then imageHeight else (t + 1) * rowsPerThread;
        assert startRow == RowStart(t, rowsPerThread) && endRow == RowEnd(t, numThreads, imageHeight, rowsPerThread);
        counts := RenderChunk(buffer, startRow, endRow, world, sampler, counts);
        done := endRow;
        t := t + 1;
      }
    }

    /**
     * `render_multithreaded`: initialize, split the rows among `ThreadCount(reported)`
     * workers, run each worker on its rows, then write out the buffer row by row. Every
     * cell of the buffer is written exactly once, and the picture is the one the
     * single-threaded renderer writes.
     */
    method RenderMultithreaded(world: World, sampler: Sampler, reported: int)
      returns (out: seq<seq<Color>>, ghost counts: seq<seq<int>>)
      requires aspectRatio != 0.0 && samplesPerPixel != 0 && imageWidth >= 0 && reported >= 0
      modifies this
      ensures Initialized()
      ensures aspectRatio == old(aspectRatio) && imageWidth == old(imageWidth)
      ensures samplesPerPixel == old(samplesPerPixel) && maxDepth == old(maxDepth)
      ensures useMultithreading == old(useMultithreading)
      ensures IsPicture(out, world, sampler)
      ensures Shaped(counts) && forall y, x :: 0 <= y < imageHeight && 0 <= x < imageWidth ==> counts[y][x] == 1
    {
      Initialize();
      out, counts := RenderBuffered(world, sampler, reported);
    }

    /**
     * What `render_multithreaded` does after `initialize`: allocate the buffer, run the
     * workers, and write the buffer out row by row.
     */
    method RenderBuffered(world: World, sampler: Sampler, reported: int)
      returns (out: seq<seq<Color>>, ghost counts: seq<seq<int>>)
      requires imageHeight >= 0 && imageWidth >= 0 && reported >= 0
      ensures IsPicture(out, world, sampler)
      ensures Shaped(counts) && forall y, x :: 0 <= y < imageHeight && 0 <= x < imageWidth ==> counts[y][x] == 1
    {
      var height, width := imageHeight, imageWidth;
      var buffer := new Color[height, width]((y, x) => Zero);
      counts := seq(height, y => seq(width, x => 0));
      var numThreads := ThreadCount(reported);
      counts := RunWorkers(buffer, numThreads, world, sampler, counts);
      out := seq(height, y requires 0 <= y < height reads buffer =>
        seq(width, x requires 0 <= x < width reads buffer => buffer[y, x]));
    }
  }
}
