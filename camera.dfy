/** `Camera` (src/world/camera.rs): a pinhole camera that renders the scene
    into a `width × height` buffer of 8-bit RGB pixels.  Every pixel averages
    nine rays, one per offset of `gen_2d_range(-1, 2)`, traced to depth 50,
    and is gamma-corrected with a square root.

    `ImageBuffer::enumerate_pixels_mut` visits the pixels row by row; the
    buffer is a flat array in that order, pixel `(x, y)` at `y * width + x`. */
module Cameras {
  import opened Platform
  import opened Vectors
  import opened Rays
  import opened Objects
  import opened Grid
  import opened Tracer
  import opened Raster

  /** `Camera::new(position, up, right, focal_len)` is this constructor. */
  datatype Camera = Camera(position: Vector3, up: Vector3, right: Vector3, focalLen: real)

  /** `image::Rgb<u8>` */
  datatype Pixel = Pixel(r: u8, g: u8, b: u8)

  /** The depth every camera ray is traced to. */
  const Depth: nat := 50

  /** Each pixel is sampled at the offsets `gen_2d_range(OffsetFrom, OffsetTo)`. */
  const OffsetFrom: int := -1
  const OffsetTo: int := 2

  /** `ray.color(&objects, 50)` as the camera sees it: a ray and the scatter
      cursor before it, to the traced colour and the cursor after it. */
  type ColorFn = (Ray, nat) -> Traced

  /** Rays of at most unit length get colours in `[0, 1]`. */
  ghost predicate ColorInUnitRange(color: ColorFn) {
    forall ray: Ray, k: nat :: LenSquared(ray.direction) <= 1.0 ==> InRange(color(ray, k).rgb, 0.0, 1.0)
  }

  /** Every traced ray draws at most `n` scatter vectors. */
  ghost predicate ColorDraws(color: ColorFn, n: nat) {
    forall ray: Ray, k: nat :: k <= color(ray, k).next <= k + n
  }

  /** The colour function of a scene: `Ray::color` at depth 50 over `objects`.
      Each camera ray draws at most 50 scatter vectors, and with a square root
      and scatter vectors in the unit ball the colours of rays of at most unit
      length stay in `[0, 1]`. */
  function SceneColor(objects: seq<Object>, sqrt: SqrtFn, scatter: Scatter): (color: ColorFn)
    ensures forall ray: Ray, k: nat :: color(ray, k) == RayColor(ray, objects, Depth, sqrt, scatter, k)
    ensures ColorDraws(color, Depth)
    ensures IsSqrt(sqrt) && InUnitBall(scatter) ==> ColorInUnitRange(color)
  {
    var color := (ray: Ray, k: nat) => RayColor(ray, objects, Depth, sqrt, scatter, k);
    assert ColorDraws(color, Depth) by {
      forall ray: Ray, k: nat
        ensures k <= color(ray, k).next <= k + Depth
      {
        assert color(ray, k) == RayColor(ray, objects, Depth, sqrt, scatter, k);
      }
    }
    assert IsSqrt(sqrt) && InUnitBall(scatter) ==> ColorInUnitRange(color) by {
      if IsSqrt(sqrt) && InUnitBall(scatter) {
        forall ray: Ray, k: nat | LenSquared(ray.direction) <= 1.0
          ensures InRange(color(ray, k).rgb, 0.0, 1.0)
        {
          RayColorInUnitRange(ray, objects, Depth, sqrt, scatter, k);
        }
      }
    }
    color
  }

  /** The lower-left corner of the viewport: half of `right` to the left, half
      of `up` below, and the focal length along `-z` from the camera. */
  function LowerLeftCorner(cam: Camera): (llc: Vector3)
    ensures Add(Add(Add(llc, Div(cam.right, 2.0)), Div(cam.up, 2.0)), Vector3(0.0, 0.0, cam.focalLen))
         == cam.position
  {
    Sub(Sub(Sub(cam.position, Div(cam.right, 2.0)), Div(cam.up, 2.0)), Vector3(0.0, 0.0, cam.focalLen))
  }

  /** The point `llc + right * u + up * v` of the viewport.  Seen from the
      lower-left corner of the camera, it is `right * (u - 1/2) + up * (v - 1/2)`
      away from the viewport's centre, which lies the focal length along `-z`
      from the camera: `(u, v) = (0, 0)` is that corner and `(1/2, 1/2)` the
      centre. */
  function ViewportPoint(cam: Camera, llc: Vector3, u: real, v: real): (p: Vector3)
    ensures u == 0.0 && v == 0.0 ==> p == llc
    ensures llc == LowerLeftCorner(cam) ==>
      p == Add(Add(Sub(cam.position, Vector3(0.0, 0.0, cam.focalLen)), Scale(cam.right, u - 0.5)),
               Scale(cam.up, v - 0.5))
  {
    Add(Add(llc, Scale(cam.right, u)), Scale(cam.up, v))
  }

  /** The viewport coordinates of the sample through pixel `(x, y)` moved by
      `offset`: `u` grows to the right and `v` upward, so row 0 is the top. */
  function SampleU(width: u32, x: int, offset: (int, int)): (u: real)
    requires width >= 2
    ensures u * ((width - 1) as real) == x as real - offset.0 as real
    ensures 0 <= x - offset.0 <= width as int - 1 ==> 0.0 <= u <= 1.0
  {
    var num, den := x as real - offset.0 as real, (width - 1) as real;
    assert 0 <= x - offset.0 <= width as int - 1 ==> 0.0 <= num / den <= 1.0 by {
      if 0 <= x - offset.0 <= width as int - 1 {
        QuotientInUnitRange(num, den);
      }
    }
    num / den
  }

  function SampleV(height: u32, y: int, offset: (int, int)): (v: real)
    requires height >= 2
    ensures v * ((height - 1) as real) == (height as int - y) as real - offset.1 as real
    ensures 0 <= height as int - y - offset.1 <= height as int - 1 ==> 0.0 <= v <= 1.0
  {
    var num, den := (height as int - y) as real - offset.1 as real, (height - 1) as real;
    assert 0 <= height as int - y - offset.1 <= height as int - 1 ==> 0.0 <= num / den <= 1.0 by {
      if 0 <= height as int - y - offset.1 <= height as int - 1 {
        QuotientInUnitRange(num, den);
      }
    }
    num / den
  }

  /** `a / b` lies in `[0, 1]` when `0 <= a <= b`. */
  lemma QuotientInUnitRange(a: real, b: real)
    requires 0.0 <= a <= b && 0.0 < b
    ensures 0.0 <= a / b <= 1.0
  {
    assert (a / b) * b == a;
  }

  /** The camera ray of one sample: from the camera through the viewport
      point of that sample, made by `Ray::new`. */
  function SampleRay(cam: Camera, llc: Vector3, width: u32, height: u32, x: int, y: int,
                     offset: (int, int), sqrt: SqrtFn): (r: Ray)
    requires width >= 2 && height >= 2
    ensures r.origin == cam.position
  {
    var u := SampleU(width, x, offset);
    var v := SampleV(height, y, offset);
    NewRay(cam.position, Sub(ViewportPoint(cam, llc, u, v), cam.position), sqrt)
  }

  /** The sample ray has at most unit length, and it reaches its viewport
      point at the distance from the camera to that point. */
  lemma SampleRayThroughViewport(cam: Camera, llc: Vector3, width: u32, height: u32, x: int, y: int,
                                 offset: (int, int), sqrt: SqrtFn)
    requires IsSqrt(sqrt)
    requires width >= 2 && height >= 2
    ensures var r := SampleRay(cam, llc, width, height, x, y, offset, sqrt);
      var p := ViewportPoint(cam, llc, SampleU(width, x, offset), SampleV(height, y, offset));
      LenSquared(r.direction) <= 1.0 &&
      At(r, Len(Sub(p, cam.position), sqrt)) == p
  {
    var p := ViewportPoint(cam, llc, SampleU(width, x, offset), SampleV(height, y, offset));
    var d := Sub(p, cam.position);
    NormalizeAtMostUnit(d, sqrt);
    NormalizeKeepsDirection(d, sqrt);
  }

  function AddRgb(a: Rgb, b: Rgb): Rgb {
    Rgb(a.r + b.r, a.g + b.g, a.b + b.b)
  }

  /** The `cumulative_rgb` after the samples of `offsets`, and the position
      of the next scatter draw.  Each sample draws at most `Depth` scatter
      vectors, and with sample colours in `[0, 1]` each channel sum of `n`
      samples lies in `[0, n]`. */
  function SampleSum(cam: Camera, llc: Vector3, width: u32, height: u32, x: int, y: int,
                     offsets: seq<(int, int)>, color: ColorFn, sqrt: SqrtFn, k: nat): (res: (Rgb, nat))
    requires width >= 2 && height >= 2
    ensures ColorDraws(color, Depth) ==> k <= res.1 <= k + Depth * |offsets|
    ensures IsSqrt(sqrt) && ColorInUnitRange(color) ==> InRange(res.0, 0.0, |offsets| as real)
  {
    if offsets == [] then (Black, k)
    else
      var n := |offsets| - 1;
      var (sum, next) := SampleSum(cam, llc, width, height, x, y, offsets[..n], color, sqrt, k);
      var ray := SampleRay(cam, llc, width, height, x, y, offsets[n], sqrt);
      var c := color(ray, next);
      assert ColorDraws(color, Depth) ==> next <= c.next <= next + Depth;
      assert IsSqrt(sqrt) && ColorInUnitRange(color) ==> InRange(c.rgb, 0.0, 1.0) by {
        if IsSqrt(sqrt) && ColorInUnitRange(color) {
          SampleRayThroughViewport(cam, llc, width, height, x, y, offsets[n], sqrt);
        }
      }
      (AddRgb(sum, c.rgb), c.next)
  }

  /** One channel of `final_rgb`: `(255 * sqrt(sum / 9)) as u8`.  The square
      root of a negative mean is NaN, which the cast turns into 0. */
  function Gamma(sum: real, sqrt: SqrtFn): (g: u8)
    ensures sum < 0.0 ==> g == 0
    ensures IsSqrt(sqrt) && 0.0 <= sum <= 9.0 ==>
      g as real <= 255.0 * sqrt(sum / 9.0) < g as real + 1.0
  {
    var mean := sum / 9.0;
    assert IsSqrt(sqrt) && 0.0 <= sum <= 9.0 ==> 0.0 <= 255.0 * sqrt(mean) <= 255.0 by {
      if IsSqrt(sqrt) && 0.0 <= sum <= 9.0 {
        SqrtMonotonic(sqrt, mean, 1.0);
        SqrtOfSquare(sqrt, 1.0, 1.0);
      }
    }
    if mean < 0.0 then 0 else CastU8(255.0 * sqrt(mean))
  }

  /** Black stays black and nine white samples give full intensity. */
  lemma GammaEnds(sqrt: SqrtFn)
    requires IsSqrt(sqrt)
    ensures Gamma(0.0, sqrt) == 0 && Gamma(9.0, sqrt) == 255
  {
    SqrtOfSquare(sqrt, 0.0, 0.0);
    SqrtOfSquare(sqrt, 1.0, 1.0);
  }

  /** More light never gives a darker channel. */
  lemma GammaMonotonic(s: real, t: real, sqrt: SqrtFn)
    requires IsSqrt(sqrt) && s <= t
    ensures Gamma(s, sqrt) <= Gamma(t, sqrt)
  {
    if 0.0 <= s {
      SqrtMonotonic(sqrt, s / 9.0, t / 9.0);
      CastU8Monotonic(255.0 * sqrt(s / 9.0), 255.0 * sqrt(t / 9.0));
    }
  }

  /** `final_rgb`: the channel sums gamma-corrected one by one.  Channel sums
      in `[0, 9]` give channels that are not clamped: each is
      `255 * sqrt(mean)` rounded down. */
  function FinalRgb(sum: Rgb, sqrt: SqrtFn): (p: Pixel)
    ensures IsSqrt(sqrt) && InRange(sum, 0.0, 9.0) ==>
      p.r as real <= 255.0 * sqrt(sum.r / 9.0) < p.r as real + 1.0 &&
      p.g as real <= 255.0 * sqrt(sum.g / 9.0) < p.g as real + 1.0 &&
      p.b as real <= 255.0 * sqrt(sum.b / 9.0) < p.b as real + 1.0
  {
    Pixel(Gamma(sum.r, sqrt), Gamma(sum.g, sqrt), Gamma(sum.b, sqrt))
  }

  /** Pixel `(x, y)`: the nine samples of `gen_2d_range(-1, 2)` summed, then
      gamma-corrected channel by channel. */
  function PixelAt(cam: Camera, llc: Vector3, width: u32, height: u32, x: int, y: int,
                   color: ColorFn, sqrt: SqrtFn, k: nat): (r: (Pixel, nat))
    requires width >= 2 && height >= 2
    ensures ColorDraws(color, Depth) ==> k <= r.1 <= k + 9 * Depth
  {
    var (sum, next) := SampleSum(cam, llc, width, height, x, y, Gen2dRange(OffsetFrom, OffsetTo), color, sqrt, k);
    (FinalRgb(sum, sqrt), next)
  }

  /** With a square root and colours in `[0, 1]`, the nine channel sums of a
      pixel lie in `[0, 9]`, so by `FinalRgb`'s contract no channel is clamped
      or NaN. */
  lemma PixelUnsaturated(cam: Camera, llc: Vector3, width: u32, height: u32, x: int, y: int,
                         color: ColorFn, sqrt: SqrtFn, k: nat)
    requires IsSqrt(sqrt) && ColorInUnitRange(color)
    requires width >= 2 && height >= 2
    ensures var sum := SampleSum(cam, llc, width, height, x, y, Gen2dRange(OffsetFrom, OffsetTo), color, sqrt, k).0;
      InRange(sum, 0.0, 9.0) &&
      PixelAt(cam, llc, width, height, x, y, color, sqrt, k).0 == FinalRgb(sum, sqrt)
  {
  }

  /** One more sample adds its traced colour to the sum and moves the cursor past its draws. */
  lemma SampleSumStep(cam: Camera, llc: Vector3, width: u32, height: u32, x: int, y: int,
                      offsets: seq<(int, int)>, i: nat, color: ColorFn, sqrt: SqrtFn, k: nat)
    requires width >= 2 && height >= 2 && i < |offsets|
    ensures var (sum, next) := SampleSum(cam, llc, width, height, x, y, offsets[..i], color, sqrt, k);
      var c := color(SampleRay(cam, llc, width, height, x, y, offsets[i], sqrt), next);
      SampleSum(cam, llc, width, height, x, y, offsets[..i + 1], color, sqrt, k) == (AddRgb(sum, c.rgb), c.next)
  {
    assert offsets[..i + 1][..i] == offsets[..i];
  }

  /** The inner loop of `render_to`: one traced sample per offset, added
      channel by channel into a fresh `cumulative_rgb` array. */
  method AccumulateSamples(cam: Camera, llc: Vector3, width: u32, height: u32, x: int, y: int,
                           offsets: seq<(int, int)>, color: ColorFn, sqrt: SqrtFn, k: nat)
    returns (cumulative: array<real>, next: nat)
    requires width >= 2 && height >= 2
    ensures fresh(cumulative) && cumulative.Length == 3
    ensures (Rgb(cumulative[0], cumulative[1], cumulative[2]), next)
         == SampleSum(cam, llc, width, height, x, y, offsets, color, sqrt, k)
  {
    cumulative := new real[3];
    cumulative[0], cumulative[1], cumulative[2] := 0.0, 0.0, 0.0;
    next := k;
    ghost var sum := Black;
    var i := 0;
    while i < |offsets|
      invariant 0 <= i <= |offsets|
      invariant cumulative[0] == sum.r && cumulative[1] == sum.g && cumulative[2] == sum.b
      invariant (sum, next) == SampleSum(cam, llc, width, height, x, y, offsets[..i], color, sqrt, k)
    {
      var ray := SampleRay(cam, llc, width, height, x, y, offsets[i], sqrt);
      var rayColor := color(ray, next);
      cumulative[0] := cumulative[0] + rayColor.rgb.r;
      cumulative[1] := cumulative[1] + rayColor.rgb.g;
      cumulative[2] := cumulative[2] + rayColor.rgb.b;
      SampleSumStep(cam, llc, width, height, x, y, offsets, i, color, sqrt, k);
      sum, next := AddRgb(sum, rayColor.rgb), rayColor.next;
      i := i + 1;
    }
    assert offsets[..i] == offsets;
  }

  /** One pixel of `render_to`: the nine samples of `gen_2d_range(-1, 2)`
      accumulated, then `final_rgb` gamma-corrected from the sums. */
  method SamplePixel(cam: Camera, llc: Vector3, width: u32, height: u32, x: int, y: int,
                     color: ColorFn, sqrt: SqrtFn, k: nat)
    returns (p: Pixel, next: nat)
    requires width >= 2 && height >= 2
    ensures (p, next) == PixelAt(cam, llc, width, height, x, y, color, sqrt, k)
  {
    var cumulative;
    cumulative, next := AccumulateSamples(cam, llc, width, height, x, y, Gen2dRange(OffsetFrom, OffsetTo),
                                          color, sqrt, k);
    p := Pixel(Gamma(cumulative[0], sqrt), Gamma(cumulative[1], sqrt), Gamma(cumulative[2], sqrt));
  }

  /** The buffer sizes `render_to` can fill: no pixel at all, or at least two
      columns and two rows (one of either divides by zero). */
  predicate Renderable(width: u32, height: u32) {
    width == 0 || height == 0 || (width >= 2 && height >= 2)
  }

  /** The pixel function of one render: column, row and scatter cursor to
      the traced pixel and the cursor after its draws. */
  function PixelFn(cam: Camera, llc: Vector3, width: u32, height: u32, color: ColorFn, sqrt: SqrtFn)
    : (f: (int, int, nat) -> (Pixel, nat))
    requires width >= 2 && height >= 2
    ensures forall x: int, y: int, k: nat :: f(x, y, k) == PixelAt(cam, llc, width, height, x, y, color, sqrt, k)
    ensures PixelsAre(f, cam, llc, width, height, color, sqrt)
  {
    (x: int, y: int, k: nat) => PixelAt(cam, llc, width, height, x, y, color, sqrt, k)
  }

  /** `f` gives every pixel's value as `PixelAt` does.  The quantifier fires
      only where a `PixelAt` term is already present, so that the loops over
      the buffer do not unfold every pixel they pass. */
  ghost predicate PixelsAre(f: (int, int, nat) -> (Pixel, nat), cam: Camera, llc: Vector3, width: u32, height: u32,
                            color: ColorFn, sqrt: SqrtFn)
  {
    width >= 2 && height >= 2 &&
    forall x: int, y: int, k: nat {:trigger PixelAt(cam, llc, width, height, x, y, color, sqrt, k)} ::
      f(x, y, k) == PixelAt(cam, llc, width, height, x, y, color, sqrt, k)
  }

  /** The whole image in buffer order and the position of the next scatter draw. */
  function Image(cam: Camera, width: u32, height: u32, color: ColorFn, sqrt: SqrtFn, k: nat)
    : (res: (seq<Pixel>, nat))
    requires Renderable(width, height)
    ensures |res.0| == width as nat * height as nat
  {
    if width < 2 || height < 2 then
      ProductZero(width as nat, height as nat);
      ([], k)
    else
      RowStartIsProduct(height as nat, width as nat);
      RowsScan(PixelFn(cam, LowerLeftCorner(cam), width, height, color, sqrt), width as nat, height as nat, k)
  }

  /** Pixel `(x, y)` sits at `y * width + x` and holds the nine-sample value
      of that pixel, traced after all pixels before it in row order. */
  lemma ImageAt(cam: Camera, width: u32, height: u32, color: ColorFn, sqrt: SqrtFn, k: nat, x: nat, y: nat)
    requires Renderable(width, height) && x < width as nat && y < height as nat
    ensures var f := PixelFn(cam, LowerLeftCorner(cam), width, height, color, sqrt);
      var cursor := RowScan(f, y, x, RowsScan(f, width as nat, y, k).1).1;
      var image := Image(cam, width, height, color, sqrt, k).0;
      y * width as nat + x < |image| &&
      CellAt(image, width as nat, x, y) == PixelAt(cam, LowerLeftCorner(cam), width, height, x, y, color, sqrt, cursor).0
  {
    var f := PixelFn(cam, LowerLeftCorner(cam), width, height, color, sqrt);
    RowsScanAt(f, width as nat, height as nat, k, x, y);
  }

  /** One row of `render_to`: pixels `(0, y)` to `(width - 1, y)` written left
      to right into the buffer from position `start`; nothing else changes. */
  method RenderRow(cam: Camera, llc: Vector3, width: u32, height: u32, y: int,
                   color: ColorFn, sqrt: SqrtFn, ghost f: (int, int, nat) -> (Pixel, nat), k: nat,
                   buf: array<Pixel>, start: nat)
    returns (next: nat)
    requires PixelsAre(f, cam, llc, width, height, color, sqrt)
    requires start + width as nat <= buf.Length
    modifies buf
    ensures buf[..start] == old(buf[..start])
    ensures buf[start + width as nat..] == old(buf[start + width as nat..])
    ensures var row := RowScan(f, y, width as nat, k);
      buf[start .. start + width as nat] == row.0 && next == row.1
  {
    var w := width as nat;
    next := k;
    var x := 0;
    while x < w
      invariant 0 <= x <= w
      invariant buf[..start] == old(buf[..start])
      invariant buf[start + w..] == old(buf[start + w..])
      invariant buf[start .. start + x] == RowScan(f, y, x, k).0 && next == RowScan(f, y, x, k).1
    {
      var p, next' := SamplePixel(cam, llc, width, height, x, y, color, sqrt, next);
      buf[start + x] := p;
      assert buf[start .. start + x + 1] == buf[start .. start + x] + [p];
      next := next';
      x := x + 1;
    }
  }

  /** One pass of the outer loop of `render_to`: with rows `0` to `y - 1`
      already in the buffer, row `y` is written right after them. */
  method RenderNextRow(cam: Camera, llc: Vector3, width: u32, height: u32,
                       color: ColorFn, sqrt: SqrtFn, ghost f: (int, int, nat) -> (Pixel, nat), k: nat,
                       buf: array<Pixel>, y: nat, start: nat, next: nat)
    returns (next': nat)
    requires PixelsAre(f, cam, llc, width, height, color, sqrt) && y < height as nat
    requires buf.Length == RowStart(height as nat, width as nat) && start == RowStart(y, width as nat) <= buf.Length
    requires var done := RowsScan(f, width as nat, y, k);
      buf[..start] == done.0 && next == done.1
    modifies buf
    ensures start + width as nat == RowStart(y + 1, width as nat) <= buf.Length
    ensures var done := RowsScan(f, width as nat, y + 1, k);
      buf[..start + width as nat] == done.0 && next' == done.1
    ensures buf[start + width as nat..] == old(buf[start + width as nat..])
  {
    var w := width as nat;
    RowStartMonotonic(y + 1, height as nat, w);
    next' := RenderRow(cam, llc, width, height, y, color, sqrt, f, next, buf, start);
    RowsScanStep(f, w, y, k);
    PrefixSplit(buf[..], start, start + w);
  }

  /** The outer loop of `render_to`: rows `0` to `height - 1` written in turn
      over the whole buffer. */
  method RenderRows(cam: Camera, llc: Vector3, width: u32, height: u32,
                    color: ColorFn, sqrt: SqrtFn, ghost f: (int, int, nat) -> (Pixel, nat), k: nat,
                    buf: array<Pixel>)
    returns (next: nat)
    requires PixelsAre(f, cam, llc, width, height, color, sqrt)
    requires buf.Length == RowStart(height as nat, width as nat)
    modifies buf
    ensures var image := RowsScan(f, width as nat, height as nat, k);
      buf[..] == image.0 && next == image.1
  {
    var w, h := width as nat, height as nat;
    next := k;
    var y, start := 0, 0;
    while y < h
      invariant 0 <= y <= h
      invariant start == RowStart(y, w) <= buf.Length
      invariant buf[..start] == RowsScan(f, w, y, k).0 && next == RowsScan(f, w, y, k).1
    {
      next := RenderNextRow(cam, llc, width, height, color, sqrt, f, k, buf, y, start, next);
      y, start := y + 1, start + w;
    }
    assert buf[..] == buf[..start];
  }

  /** `render_to(width, height, objects)` with `color` standing for
      `ray.color(&objects, 50)`: a fresh zeroed buffer with every pixel written
      once, rows from top to bottom and each row left to right, the order in
      which `enumerate_pixels_mut` visits them. */
  method RenderTo(cam: Camera, width: u32, height: u32, color: ColorFn, sqrt: SqrtFn, k: nat)
    returns (buf: array<Pixel>, next: nat)
    requires Renderable(width, height)
    ensures fresh(buf)
    ensures buf[..] == Image(cam, width, height, color, sqrt, k).0
    ensures next == Image(cam, width, height, color, sqrt, k).1
  {
    var llc := LowerLeftCorner(cam);
    buf := new Pixel[width as nat * height as nat](_ => Pixel(0, 0, 0));
    if width < 2 || height < 2 {
      ProductZero(width as nat, height as nat);
      assert buf[..] == [];
      next := k;
    } else {
      RowStartIsProduct(height as nat, width as nat);
      next := RenderRows(cam, llc, width, height, color, sqrt, PixelFn(cam, llc, width, height, color, sqrt), k, buf);
    }
  }
}
