/** `Ray` (src/math/ray.rs): an origin and a direction.  The recursive
    `Ray::color` lives in module Tracer (file tracer.dfy), because it needs
    the objects, which themselves need rays. */
module Rays {
  import opened Platform
  import opened Vectors

  /** The struct literal `Ray { origin, direction }`: the direction is stored as given. */
  datatype Ray = Ray(origin: Vector3, direction: Vector3)

  /** `Ray::new`: the direction is normalised. */
  function NewRay(origin: Vector3, direction: Vector3, sqrt: SqrtFn): (r: Ray)
    ensures r.origin == origin
    ensures Len(direction, sqrt) != 0.0 ==> Scale(r.direction, Len(direction, sqrt)) == direction
  {
    Ray(origin, Normalize(direction, sqrt))
  }

  /** `at(t)`: the point `O + D t`. */
  function At(ray: Ray, t: real): (p: Vector3)
    ensures Sub(p, ray.origin) == Scale(ray.direction, t)
  {
    Add(ray.origin, Scale(ray.direction, t))
  }

  /** `Ray::new` keeps the origin; a non-zero direction comes out of unit
      length and pointing the same way. */
  lemma NewRayNormalizes(origin: Vector3, direction: Vector3, sqrt: SqrtFn)
    requires IsSqrt(sqrt)
    requires direction != Zero
    ensures NewRay(origin, direction, sqrt).origin == origin
    ensures LenSquared(NewRay(origin, direction, sqrt).direction) == 1.0
    ensures Scale(NewRay(origin, direction, sqrt).direction, Len(direction, sqrt)) == direction
  {
    NormalizeIsUnit(direction, sqrt);
    NormalizeKeepsDirection(direction, sqrt);
  }

  /** The ray starts at its origin. */
  lemma AtZero(ray: Ray)
    ensures At(ray, 0.0) == ray.origin
  {
  }

  /** Moving from `s` to `t` along the ray moves by `D (t - s)`. */
  lemma AtDifference(ray: Ray, s: real, t: real)
    ensures Sub(At(ray, t), At(ray, s)) == Scale(ray.direction, t - s)
  {
  }
}
