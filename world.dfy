/** `World` (src/world/world.rs): the scene a program builds up before it is
    shown: a window name and size, an optional camera and the objects.
    `World::run` (window, event loop, frame buffer) is not part of this model. */
module Worlds {
  import opened Platform
  import opened Vectors
  import opened Objects
  import opened Cameras

  /** `self.width as f64 / self.height as f64` */
  function AspectRatio(width: u32, height: u32): (a: real)
    requires height > 0
    ensures a * (height as real) == width as real
    ensures 0.0 <= a
  {
    width as real / height as real
  }

  /** The camera `World::camera` builds: `up` normalised and doubled, `right`
      normalised, doubled and stretched by the aspect ratio, focal length 1. */
  function ViewCamera(position: Vector3, up: Vector3, right: Vector3, width: u32, height: u32, sqrt: SqrtFn): (cam: Camera)
    requires height > 0
    ensures cam.position == position && cam.focalLen == 1.0
  {
    var up' := Scale(Normalize(up, sqrt), 2.0);
    var right' := Scale(Scale(Normalize(right, sqrt), 2.0), AspectRatio(width, height));
    Camera(position, up', right', 1.0)
  }

  /** The viewport the camera spans is `2 · aspect` wide and `2` high, and
      its edges point along `right` and `up`. */
  lemma ViewCameraViewport(position: Vector3, up: Vector3, right: Vector3, width: u32, height: u32, sqrt: SqrtFn)
    requires IsSqrt(sqrt) && height > 0 && up != Zero && right != Zero
    ensures var cam := ViewCamera(position, up, right, width, height, sqrt);
      var aspect := AspectRatio(width, height);
      LenSquared(cam.up) == 4.0 &&
      LenSquared(cam.right) == 4.0 * (aspect * aspect) &&
      Scale(cam.up, Len(up, sqrt)) == Scale(up, 2.0) &&
      Scale(cam.right, Len(right, sqrt)) == Scale(right, 2.0 * aspect)
  {
    var aspect := AspectRatio(width, height);
    ScaledDirection(up, 2.0, sqrt);
    ScaleScale(Normalize(right, sqrt), 2.0, aspect);
    ScaledDirection(right, 2.0 * aspect, sqrt);
    assert (2.0 * aspect) * (2.0 * aspect) == 4.0 * (aspect * aspect);
  }

  /** A non-zero vector normalised and scaled by `s` has length `|s|` and,
      stretched back by the original length, is `v` scaled by `s`. */
  lemma ScaledDirection(v: Vector3, s: real, sqrt: SqrtFn)
    requires IsSqrt(sqrt) && v != Zero
    ensures LenSquared(Scale(Normalize(v, sqrt), s)) == s * s
    ensures Scale(Scale(Normalize(v, sqrt), s), Len(v, sqrt)) == Scale(v, s)
  {
    var n, l := Normalize(v, sqrt), Len(v, sqrt);
    NormalizeIsUnit(v, sqrt);
    LenSquaredScale(n, s);
    NormalizeKeepsDirection(v, sqrt);
    ScaleScale(n, s, l);
    ScaleScale(n, l, s);
    assert s * l == l * s;
  }

  class World {
    var name: string
    var width: u32
    var height: u32
    var camera: Option<Camera>
    var objects: seq<Object>

    /** `World::new(name, width, height)`: the sizes are cast to `u32`,
        there is no camera and there are no objects yet. */
    constructor (name: string, width: nat, height: nat)
      ensures this.name == name
      ensures this.width == CastU32(width) && this.height == CastU32(height)
      ensures camera == None && objects == []
    {
      this.name := name;
      this.width := CastU32(width);
      this.height := CastU32(height);
      camera := None;
      objects := [];
    }

    /** `World::camera(position, up, right)`: the camera is replaced and
        nothing else changes. */
    method SetCamera(position: Vector3, up: Vector3, right: Vector3, sqrt: SqrtFn)
      requires height > 0 && up != Zero && right != Zero
      modifies this
      ensures name == old(name) && width == old(width) && height == old(height)
      ensures camera == Some(ViewCamera(position, up, right, width, height, sqrt))
      ensures objects == old(objects)
    {
      camera := Some(ViewCamera(position, up, right, width, height, sqrt));
    }

    /** `World::add_object(object)`: `obj` is pushed last, the earlier
        ones keep their places, and nothing else changes. */
    method AddObject(obj: Object)
      modifies this
      ensures |objects| == |old(objects)| + 1
      ensures objects[|old(objects)|] == obj && objects[..|old(objects)|] == old(objects)
      ensures name == old(name) && width == old(width) && height == old(height)
      ensures camera == old(camera)
    {
      objects := objects + [obj];
    }
  }
}
