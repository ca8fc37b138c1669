# chromatic: a verified model of a sphere-only ray tracer

This project models the core of `chromatic`, a small Rust ray tracer, and proves properties of the model in Dafny.

- A scene (`World`) holds a camera and a list of spheres.
- `Camera::render_to` fills a `width × height` buffer of 8-bit RGB pixels. Each pixel averages nine camera rays, one per offset of `gen_2d_range(-1, 2)`.
- Each ray is traced by the recursive `Ray::color` to depth 50:
  - it picks the nearest sphere that `Sphere::hit_at` reports;
  - it bounces off that sphere in the direction of the surface normal plus a random scatter vector;
  - it halves the colour seen by the bounce ray;
  - a ray that hits nothing sees a sky gradient.
- The nine samples are summed channel by channel. Each sum is divided by nine and gamma-corrected with a square root, then cast to `u8`.

Modelling conventions:

- `f64` is `real`.
- `f64::sqrt` is a parameter `sqrt: real -> real`. Lemmas that need its meaning assume `IsSqrt(sqrt)`: for every non-negative `x`, `sqrt(x)` is non-negative and squares to `x`.
- `rand_sphere_coord()` is a stream `scatter: nat -> Vector3` with a cursor `k`. Each bounce reads `scatter(k)` and moves the cursor on, so every traced colour also reports where the next draw starts.
- `Box<dyn Object>` is the one-variant datatype `Object = Sphere(...)`.
- `image::ImageBuffer` is a flat `array<Pixel>` in row-major order: pixel `(x, y)` sits at `y * width + x`, the order in which `enumerate_pixels_mut` visits pixels.
- The vector algebra, `gen_2d_range`, `Color`, `Sphere`, `HitRecord` and `Ray::color` are pure and are modelled as functions and lemmas.
- These are modelled imperatively:
  - `render_to`, with its pixel loop and its `cumulative_rgb` array, is a set of methods with loop invariants, proved against the function `Image`;
  - `World`, whose methods update fields, is a class.

Modules, in dependency order:

- `Platform` (`platform.dfy`) has no source file of its own. It holds what the Rust language and its standard library supply: `Option`, `u8`, `u32`, the square-root parameter, and the `as u8` and `as u32` casts.
- `Vectors` (`vector.dfy`): `src/math/vector.rs`.
- `Colors` (`color.dfy`): `src/math/color.rs`.
- `Grid` (`grid.dfy`): `gen_2d_range` from `src/math/mod.rs`, and `RowStart`, the row-major layout that both the grid of pairs and the pixel buffer follow.
- `Rays` (`ray.dfy`): the `Ray` struct, `Ray::new` and `Ray::at` from `src/math/ray.rs`.
- `Objects` (`object.dfy`): `src/world/object.rs`.
- `HitRecords` (`hit_record.dfy`): `src/math/hit_record.rs`.
- `Tracer` (`tracer.dfy`): `Ray::color`, the rest of `src/math/ray.rs`. It is a module of its own because it needs the objects, which themselves need rays.
- `Raster` (`raster.dfy`) has no source file of its own. It holds the integer facts and row-major scans behind the pixel buffer that `render_to` in `src/world/camera.rs` fills.
- `Cameras` (`camera.dfy`): `src/world/camera.rs`.
- `Worlds` (`world.dfy`): `src/world/world.rs`.

## Model

| member | source | states |
|---|---|---|
| Platform.CastU8 | src/world/camera.rs:55-59 | `as u8` of a non-NaN `f64`: within 0..256 the value is rounded down; negatives give 0 and values of 255 or more give 255 |
| Platform.CastU8Monotonic | src/world/camera.rs:55-59 | the cast never maps a larger number to a smaller byte |
| Platform.CastU32 | src/world/world.rs:22-23 | `usize as u32` keeps a value below 2³² and otherwise drops a multiple of 2³² |
| Platform.SqrtOfSquare | src/math/vector.rs:28-30 | the square root is unique: a non-negative `s` with `s² = x` is `sqrt(x)` |
| Vectors.Get | src/math/vector.rs:15-22 | `get(i)` is x, y, z for i = 0, 1, 2; other indices panic, so they are excluded by the precondition |
| Vectors.LenSquared | src/math/vector.rs:24-26 | `len_squared` is never negative |
| Vectors.LenSquaredZero | src/math/vector.rs:24-26 | the squared length is zero exactly for the zero vector |
| Vectors.Len | src/math/vector.rs:28-30 | with a square root, `len` is non-negative and squares to `len_squared` |
| Vectors.Normalize | src/math/vector.rs:36-44 | a non-zero vector divided by its length, scaled back by that length, is the original vector; a zero vector comes back unchanged where the source divides by zero |
| Vectors.Add | src/math/vector.rs:47-67 | subtracting `b` from `a + b` gives back `a` |
| Vectors.SubZero | src/math/vector.rs:58-67 | `a - b` is the zero vector exactly when `a == b` |
| Vectors.Div | src/math/vector.rs:80-90 | for a non-zero `s`, each component of `v / s` times `s` is that component of `v` |
| Vectors.AddComponentwise | src/math/vector.rs:47-56 | `+` adds component by component, for every index `get` accepts |
| Vectors.SubComponentwise | src/math/vector.rs:58-67 | `-` subtracts component by component |
| Vectors.ScaleComponentwise | src/math/vector.rs:69-78 | `* s` multiplies each component by `s` |
| Vectors.DivComponentwise | src/math/vector.rs:80-90 | `/ s` divides each component by a non-zero `s` |
| Vectors.ScaleOne | src/math/vector.rs:69-78 | `v * 1 == v` |
| Vectors.ScaleZero | src/math/vector.rs:69-78 | `v * 0` is the zero vector |
| Vectors.DivUndoesScale | src/math/vector.rs:69-90 | `(v * s) / s == v` for non-zero `s` |
| Vectors.DotSymmetric | src/math/vector.rs:32-34 | `a · b == b · a` |
| Vectors.DotSelf | src/math/vector.rs:24-34 | `v · v == len_squared(v)` |
| Vectors.LenZero | src/math/vector.rs:28-30 | `len` is zero exactly for the zero vector |
| Vectors.ScaleScale | src/math/vector.rs:69-78 | scaling by `a` then by `b` is scaling by `a * b` |
| Vectors.LenSquaredScale | src/math/vector.rs:69-78 | scaling by `s` multiplies the squared length by `s²` |
| Vectors.NormalizeIsUnit | src/math/vector.rs:36-44 | a non-zero vector normalises to squared length 1 |
| Vectors.NormalizeKeepsDirection | src/math/vector.rs:36-44 | the normalised vector scaled back by the length is the original vector |
| Vectors.NormalizeAtMostUnit | src/math/vector.rs:36-44 | a normalised vector never has squared length above 1 |
| Colors.DataOfNew | src/math/color.rs:9-15 | `Color::new(r, g, b).data() == [r, g, b]` |
| Colors.DataInjective | src/math/color.rs:13-15 | colours with the same three bytes are equal, so `data` loses nothing |
| Colors.Data | src/math/color.rs:13-15 | `data` returns three bytes, and the colour built from them is the original colour |
| Grid.Range | src/math/mod.rs:6 | `from..to` has `to - from` elements (none if `to < from`), and element `i` is `from + i` |
| Grid.Row | src/math/mod.rs:6 | the inner `map` pairs a fixed `a` with each inner value in turn |
| Grid.FlatMapRowsAt | src/math/mod.rs:6 | in the flattened grid, row `p` starts at `p * n` and holds `outer[p]` paired with each inner value |
| Grid.FlatMapRows | src/math/mod.rs:6 | the flattened grid has as many pairs as the product of the two range lengths |
| Grid.RowStartIsProduct | src/world/camera.rs:34-36 | in the row-major layout, row `y` starts at position `y * width` |
| Grid.RowStartMonotonic | src/world/camera.rs:34-36 | later rows start later |
| Grid.FlatMapRowsMembers | src/math/mod.rs:6 | each pair takes its first component from the outer range and its second from the inner range |
| Grid.FlatMapRowsSorted | src/math/mod.rs:6 | over increasing ranges, the flattened pairs are strictly increasing in lexicographic order |
| Grid.RangeMembers | src/math/mod.rs:6 | `a` is in `from..to` exactly when `from <= a < to` |
| Grid.Gen2dRange | src/math/mod.rs:5-7 | `gen_2d_range(from, to)` yields `(to - from)²` pairs when `from <= to` and none otherwise |
| Grid.Gen2dRangeAt | src/math/mod.rs:5-7 | pair `(a, b)` sits at position `(a - from) * (to - from) + (b - from)`: the outer `a` is fixed while `b` runs |
| Grid.Gen2dRangeMembers | src/math/mod.rs:5-7 | `(a, b)` is yielded exactly when both components lie in `from..to` |
| Grid.Gen2dRangeSorted | src/math/mod.rs:5-7 | the pairs come in strictly increasing lexicographic order |
| Grid.Gen2dRangeDistinct | src/math/mod.rs:5-7 | no pair is yielded twice |
| Grid.CameraOffsets | src/world/camera.rs:41 | `gen_2d_range(-1, 2)` is the nine pairs of `{-1, 0, 1}²`, each once, in lexicographic order |
| Rays.NewRay | src/math/ray.rs:17-22 | `Ray::new` keeps the origin, and a direction of non-zero length, scaled back by that length, is the given direction |
| Rays.At | src/math/ray.rs:27-29 | `at(t) - origin` is `direction * t` |
| Rays.NewRayNormalizes | src/math/ray.rs:17-22 | `Ray::new` keeps the origin; a non-zero direction becomes a unit vector pointing the same way |
| Rays.AtZero | src/math/ray.rs:27-29 | `at(0)` is the origin |
| Rays.AtDifference | src/math/ray.rs:27-29 | moving along the ray from `s` to `t` moves by `direction * (t - s)` |
| Objects.SurfaceQuadratic | src/world/object.rs:29-35 | the squared distance of `O + tD` from the centre, minus `r²`, equals `a t² + b t + c` for the `a`, `b` and `c` that `hit_at` computes |
| Objects.HitAt | src/world/object.rs:28-41 | `None` exactly when the discriminant is negative or `a == 0` (a zero direction, where the source divides by zero); a reported `t` satisfies `2a t = -b - sqrt(b² - 4ac)` |
| Objects.HitAtNone | src/world/object.rs:28-41 | `hit_at` is `None` exactly when the discriminant is negative or the direction is zero |
| Objects.HitAtOnSurface | src/world/object.rs:28-41 | a reported `t` puts `O + tD` on the sphere |
| Objects.RootOnSurface | src/world/object.rs:39 | `(-b - s) / 2a` with `s² = b² - 4ac` is a point of the sphere |
| Objects.HitAtMiss | src/world/object.rs:28-41 | for a non-zero direction, `None` means no point of the ray's line is on the sphere |
| Objects.HitAtNearest | src/world/object.rs:39 | the reported `t` is at most every `t'` whose point is on the sphere, so it is the smaller root |
| Objects.SmallerRoot | src/world/object.rs:39 | for `a > 0`, `(-b - sqrt(b² - 4ac)) / 2a` is at most every root of `a t² + b t + c` |
| Objects.HitAtExactlyWhenMeets | src/world/object.rs:28-41 | for a non-zero direction, `hit_at` is `Some` exactly when the ray's line meets the sphere |
| Objects.HitAtAlongAxis | src/world/object.rs:28-41 | a ray from the origin along `-z` meets a sphere centred at `(0, 0, p)` of radius `r` at `t = -p - r` |
| Objects.HitAtBehindOrigin | src/world/object.rs:36-40 | negative roots are not rejected: the sphere at `(0, 0, 5)` with radius 1 and the ray along `-z` give `Some(-6)` |
| Objects.HitAtInFront | src/world/object.rs:28-41 | a sphere of radius 0.5 at `(0, 0, -1)` is hit at `t = 0.5` by the ray from the origin along `-z` |
| Objects.AccessorsOfNew | src/world/object.rs:18-49 | `color()` and `position()` return what `Sphere::new` stored |
| Objects.ColorOf | src/world/object.rs:43-45 | `color()` returns the stored colour: the sphere rebuilt with it is the original sphere |
| Objects.PositionOf | src/world/object.rs:47-49 | `position()` returns the stored centre: the sphere rebuilt with it is the original sphere |
| HitRecords.NewHitRecord | src/math/hit_record.rs:13-28 | `front_face` holds exactly when `direction · outward < 0`; the normal is `outward` on the front face and `-outward` otherwise, so it always opposes the ray and keeps its length; location and `t` are stored unchanged |
| HitRecords.BounceRay | src/math/hit_record.rs:30-35 | the bounce ray starts at the hit location with direction `normal + scatter` |
| HitRecords.BounceRayNotNormalized | src/math/hit_record.rs:30-35 | the bounce direction is not normalised: a unit normal plus the same unit scatter has squared length 4 |
| HitRecords.NewHitRecordOrientation | src/math/hit_record.rs:14-20 | for a ray not tangent to the surface (ray direction · outward normal ≠ 0), reversing the ray flips `front_face` and negates the stored normal |
| HitRecords.BounceRayFollowsNormal | src/math/hit_record.rs:30-35 | a scatter vector no longer than the normal sends the bounce ray to the normal's side (`direction · normal >= 0`) |
| Tracer.CompareT | src/math/ray.rs:46-54 | the closure returns `Less` exactly when `t1 < t2`, `Greater` exactly when `t2 < t1`, and `Equal` exactly when they are equal |
| Tracer.MinOf | src/math/ray.rs:46-54 | `min_by` of two candidates returns one of them, no further than either, and the first one on a tie |
| Tracer.Reduce | src/math/ray.rs:46-54 | `min_by` returns an element that is no further than any other |
| Tracer.ReduceFirst | src/math/ray.rs:46-54 | `min_by` returns the first minimum: every earlier element is strictly further |
| Tracer.Candidates | src/math/ray.rs:37-45 | the `filter_map` keeps exactly the objects `hit_at` reports, with their distances, in object order |
| Tracer.NearestHit | src/math/ray.rs:37-54 | there is no hit exactly when no object reports one; otherwise the chosen object reports that distance, and that distance is at most every reported one |
| Tracer.NearestHitFirst | src/math/ray.rs:46-54 | on a tie the first object in sequence order wins: every earlier object either misses or is strictly further |
| Tracer.ReduceFirstMinimum | src/math/ray.rs:46-54 | over candidates listed in object order, `min_by`'s pick is strictly nearer than every candidate of an earlier object |
| Tracer.Background | src/math/ray.rs:62-71 | the sky is `(0.75 - 0.25 y, 0.85 - 0.15 y, 1)` for direction component `y`: the blend with `t = (y + 1) / 2` |
| Tracer.BackgroundEndpoints | src/math/ray.rs:62-71 | looking straight up gives `[0.5, 0.7, 1]`; looking straight down gives `[1, 1, 1]` |
| Tracer.Half | src/math/ray.rs:61 | every channel is halved |
| Tracer.Bounce | src/math/ray.rs:57-58 | the bounce ray starts at the hit point `at(t)`; `BounceDirection` states its direction |
| Tracer.BounceDirection | src/math/ray.rs:57-58 | without the scatter vector, the bounce direction is the surface normal: scaled back by the length of the radius `at(t) - centre` it is that radius or its opposite; it has unit length unless the hit point is the centre, and it opposes the incoming ray |
| Tracer.RayColor | src/math/ray.rs:32-72 | the recursion ends (it decreases on `depth`) and draws at most `depth` scatter vectors |
| Tracer.RayColorDepthZero | src/math/ray.rs:33-35 | depth 0 is black for every ray and scene, and draws nothing |
| Tracer.RayColorMiss | src/math/ray.rs:62-71 | with depth > 0, a ray that no object reports hitting sees the sky and draws nothing |
| Tracer.RayColorHit | src/math/ray.rs:56-61 | on a hit at depth `d + 1`, each channel is exactly half of the bounce ray's colour at depth `d`, read one draw later |
| Tracer.BackgroundBounded | src/math/ray.rs:62-71 | for `-2 <= y <= 2`, the sky's channels lie in `[0, 1.25]` |
| Tracer.BackgroundUnitBounded | src/math/ray.rs:62-71 | for `-1 <= y <= 1`, the sky's channels lie in `[0.5, 1]` |
| Tracer.BounceVertical | src/math/ray.rs:57-58 | a scatter vector in the unit ball gives a bounce direction whose `y` lies in `[-2, 2]` |
| Tracer.HitHalvesBound | src/math/ray.rs:56-61 | on a hit, a bound `[0, hi]` on the bounce ray's colour becomes `[0, hi / 2]` |
| Tracer.MissSeesSky | src/math/ray.rs:62-71 | with depth > 0 and no nearest hit, the colour is the sky's |
| Tracer.RayColorBounded | src/math/ray.rs:32-72 | with scatter vectors in the unit ball, every ray with `-2 <= y <= 2` gets channels in `[0, 1.25]`, at every depth |
| Tracer.RayColorInUnitRange | src/math/ray.rs:32-72 | a ray of at most unit length, as `Ray::new` makes, gets channels in `[0, 1]` |
| Raster.BufferIndex | src/world/camera.rs:34-36 | pixel `(x, y)` has buffer position `y * width + x` inside the buffer, and that position divides back to `(x, y)` |
| Raster.RowScan | src/world/camera.rs:36 | a row scan of `count` pixels yields `count` values |
| Raster.RowsScan | src/world/camera.rs:36 | a scan of `rows` rows yields `rows * width` values |
| Raster.RowsScanStep | src/world/camera.rs:36 | one more row appends that row's pixels, traced after the earlier rows' draws |
| Raster.RowScanExtend | src/world/camera.rs:36 | scanning further along a row only appends |
| Raster.RowsScanExtend | src/world/camera.rs:36 | scanning more rows only appends |
| Raster.RowsScanAt | src/world/camera.rs:36-60 | value `(x, y)` sits at `y * width + x` and is the pixel function at `(x, y)`, started at the cursor left by every earlier pixel in row order |
| Cameras.SceneColor | src/world/camera.rs:48 | each camera ray draws at most 50 scatter vectors; with a square root and scatter vectors in the unit ball, every ray of at most unit length gets colours in `[0, 1]` |
| Cameras.LowerLeftCorner | src/world/camera.rs:29-32 | `llc + right / 2 + up / 2 + (0, 0, focal_len)` is the camera position |
| Cameras.ViewportPoint | src/world/camera.rs:46 | `(u, v) = (0, 0)` is `llc`; from the camera's lower-left corner the point is the viewport centre, the focal length along `-z` from the camera, moved by `right (u - 1/2) + up (v - 1/2)` |
| Cameras.SampleU | src/world/camera.rs:42 | `u (width - 1) = x - x_offset`, and `u` lies in `[0, 1]` when `x - x_offset` lies in `0..width` |
| Cameras.SampleV | src/world/camera.rs:43 | `v (height - 1) = (height - y) - y_offset`, and `v` lies in `[0, 1]` when `(height - y) - y_offset` lies in `0..height` |
| Cameras.SampleRay | src/world/camera.rs:42-47 | every sample ray starts at the camera position |
| Cameras.SampleRayThroughViewport | src/world/camera.rs:42-47 | the sample ray has at most unit length and reaches the viewport point `llc + right u + up v` at the distance from camera to that point |
| Cameras.SampleSumStep | src/world/camera.rs:41-53 | one more offset adds its traced colour channel-wise to the sum and moves the cursor past that sample's draws |
| Cameras.SampleSum | src/world/camera.rs:40-53 | when each sample draws at most 50 scatter vectors, `n` samples draw at most `50 n`; with sample colours in `[0, 1]`, each channel sum of `n` samples lies in `[0, n]` |
| Cameras.AccumulateSamples | src/world/camera.rs:40-53 | the `cumulative_rgb` loop ends with a fresh three-slot array holding the channel sums of one traced sample per offset, as `SampleSum` defines them |
| Cameras.Gamma | src/world/camera.rs:55-59 | a negative sum gives 0, which is what the cast makes of the square root's NaN; a sum in `[0, 9]` gives `255 * sqrt(sum / 9)` rounded down, unclamped |
| Cameras.GammaEnds | src/world/camera.rs:55-59 | a sum of 0 gives 0 and a sum of 9 gives 255 |
| Cameras.GammaMonotonic | src/world/camera.rs:55-59 | more light never gives a darker channel |
| Cameras.FinalRgb | src/world/camera.rs:55-59 | with a square root, channel sums in `[0, 9]` give each channel as `255 * sqrt(sum / 9)` rounded down |
| Cameras.PixelAt | src/world/camera.rs:40-60 | when each sample draws at most 50 scatter vectors, a pixel draws at most `9 * 50` |
| Cameras.PixelUnsaturated | src/world/camera.rs:40-59 | with colours in `[0, 1]`, a pixel's nine channel sums lie in `[0, 9]`, so no channel is clamped |
| Cameras.SamplePixel | src/world/camera.rs:40-60 | one pixel is the gamma-corrected sum of the nine samples of `gen_2d_range(-1, 2)`, as `PixelAt` defines it |
| Cameras.Image | src/world/camera.rs:34-36 | the image holds `width * height` pixels |
| Cameras.ImageAt | src/world/camera.rs:34-60 | pixel `(x, y)` of the image sits at `y * width + x` and holds that pixel's nine-sample value, traced after every earlier pixel in row order |
| Cameras.RenderRow | src/world/camera.rs:36-61 | one row is written left to right into its slice of the buffer, and nothing outside the slice changes |
| Cameras.RenderNextRow | src/world/camera.rs:36-61 | with rows `0..y` in place, row `y` is written right after them, and the buffer after row `y` is unchanged |
| Cameras.RenderRows | src/world/camera.rs:36-61 | the pixel loop leaves the whole buffer equal to the row-major scan of every pixel |
| Cameras.RenderTo | src/world/camera.rs:27-66 | `render_to` returns a fresh buffer equal to `Image`: every pixel is written once, rows top to bottom and each row left to right |
| Worlds.AspectRatio | src/world/world.rs:32 | the aspect ratio times the height is the width |
| Worlds.ViewCamera | src/world/world.rs:29-36 | the camera `World::camera` builds keeps the given position and has focal length 1 |
| Worlds.ViewCameraViewport | src/world/world.rs:30-35 | for non-zero `up` and `right`, `up` becomes length 2 in its own direction and `right` becomes length `2 * aspect` in its own direction |
| Worlds.ScaledDirection | src/world/world.rs:30-34 | a non-zero vector normalised and scaled by `s` has squared length `s²`, and stretched back by the original length it is the original vector scaled by `s` |
| Worlds.World.constructor | src/world/world.rs:19-27 | `World::new` stores the name and the `u32` casts of the sizes, with no camera and no objects |
| Worlds.World.SetCamera | src/world/world.rs:29-38 | `camera(...)` sets the camera to `Some` of that view camera and leaves name, sizes and objects unchanged |
| Worlds.World.AddObject | src/world/world.rs:40-42 | `add_object` appends: the object list grows by one, the new object is last, earlier objects are unchanged, and so are the camera, name and sizes |

## Left out

- IEEE-754 arithmetic: the model computes over the reals. It makes no claim about rounding, NaN or infinity, or the exact decimal value of constants such as `0.7`. Where the source would produce NaN, the model totalises:
  - `Normalize` returns a zero vector unchanged;
  - `HitAt` with a zero direction (`a == 0`) returns `None`;
  - `Gamma` of a negative mean returns 0, which is what `as u8` makes of NaN.
- `sqrt` is a parameter, not a computation. Its meaning is assumed through `IsSqrt` in the lemmas that need it.
- `rand_sphere_coord` is not defined in the repository (`src/math/mod.rs` declares no such function and no `hit_record` module). It is an input stream, and rejection sampling is not modelled. The bounds on traced colours assume the stream stays in the unit ball (`InUnitBall`).
- `Cameras.RenderTo` takes `Ray::color` as a colour-function parameter. `Cameras.SceneColor` supplies the real tracer, and its contract carries the tracer's draw count and colour range over.
- Cameras.RenderTo requires `Renderable(width, height)`, i.e. no pixels at all or at least two columns and two rows. A width or height of 1 divides by zero in the source, and that case is not modelled.
- `World::camera` divides by `height`, and the model requires `height > 0`. Worlds.World.SetCamera also requires non-zero `up` and `right`, because the source would produce NaN otherwise.
- The progress `println!`, `buf.save("image.png")` and the `pixels`/`winit` crates are I/O and are left out.
- `World::run` is left out: it runs the window event loop. Its call `render_to(&mut pixels, ...)` does not match the `(width, height, objects)` signature that `camera.rs` defines.
- `src/main.rs` is startup wiring and is not part of this model.
- `Box<dyn Object>` dynamic dispatch is replaced by a one-variant datatype. `Object::color()` is modelled and proved but the tracer never uses it.
- Negative intersection distances: `Sphere::hit_at` does not reject a sphere behind the ray's origin, and the model follows the code (`HitAtBehindOrigin`). The forward-only retry with the larger root, radius validation and degenerate-geometry errors are not in the code, so they are not in the model.
- The `i32` offsets and the `u32` pixel coordinates are modelled as unbounded `int`. The `u32` subtractions in `render_to` cannot underflow: `height - y` because `y < height`, and `width - 1` and `height - 1` because the model requires `width, height >= 2`.
