/** `HitRecord` (src/math/hit_record.rs): where a ray met a surface, the
    normal turned to face the incoming ray, and the ray that bounces off.
    `rand_sphere_coord()` is not defined by the sources; the random scatter
    vector it returns is a parameter of `BounceRay`. */
module HitRecords {
  import opened Vectors
  import opened Rays

  datatype HitRecord = HitRecord(location: Vector3, normal: Vector3, t: real, frontFace: bool)

  /** `HitRecord::new`: the ray meets the front face when it travels against
      the outward normal; otherwise the normal is flipped so that it opposes
      the ray. */
  function NewHitRecord(location: Vector3, outwardNormal: Vector3, rayDirection: Vector3, t: real): (h: HitRecord)
    ensures h.location == location && h.t == t
    ensures h.frontFace <==> Dot(rayDirection, outwardNormal) < 0.0
    ensures h.frontFace ==> h.normal == outwardNormal
    ensures !h.frontFace ==> h.normal == Scale(outwardNormal, -1.0)
    ensures Dot(h.normal, rayDirection) <= 0.0
    ensures LenSquared(h.normal) == LenSquared(outwardNormal)
  {
    var frontFace := Dot(rayDirection, outwardNormal) < 0.0;
    var normal := if frontFace then outwardNormal else Scale(outwardNormal, -1.0);
    DotSymmetric(rayDirection, outwardNormal);
    LenSquaredScale(outwardNormal, -1.0);
    HitRecord(location, normal, t, frontFace)
  }

  /** `bounce_ray`: a `Ray` literal, so `normal + scatter` is not normalised. */
  function BounceRay(h: HitRecord, scatter: Vector3): (r: Ray)
    ensures At(r, 0.0) == h.location
    ensures Sub(At(r, 1.0), h.location) == Add(h.normal, scatter)
  {
    Ray(h.location, Add(h.normal, scatter))
  }

  /** The bounce direction is not of unit length in general: a unit normal
      and a unit scatter vector pointing the same way give length 2. */
  lemma BounceRayNotNormalized()
    ensures LenSquared(BounceRay(HitRecord(Zero, Vector3(0.0, 0.0, 1.0), 1.0, true),
                                 Vector3(0.0, 0.0, 1.0)).direction) == 4.0
  {
    calc {
      LenSquared(BounceRay(HitRecord(Zero, Vector3(0.0, 0.0, 1.0), 1.0, true), Vector3(0.0, 0.0, 1.0)).direction);
   == LenSquared(Vector3(0.0, 0.0, 2.0));
   == 4.0;
    }
  }

  /** The orientation depends only on which way the ray travels: recording
      the same hit from the other side flips `front_face` and keeps the
      normal opposing the ray. */
  lemma NewHitRecordOrientation(location: Vector3, outwardNormal: Vector3, rayDirection: Vector3, t: real)
    requires Dot(rayDirection, outwardNormal) != 0.0
    ensures NewHitRecord(location, outwardNormal, rayDirection, t).frontFace
         != NewHitRecord(location, outwardNormal, Scale(rayDirection, -1.0), t).frontFace
    ensures NewHitRecord(location, outwardNormal, rayDirection, t).normal
         == Scale(NewHitRecord(location, outwardNormal, Scale(rayDirection, -1.0), t).normal, -1.0)
  {
    var d := Dot(rayDirection, outwardNormal);
    assert Dot(Scale(rayDirection, -1.0), outwardNormal) == -d;
    assert Scale(Scale(outwardNormal, -1.0), -1.0) == outwardNormal;
  }

  /** Lagrange's identity in three dimensions. */
  lemma Lagrange(a: Vector3, b: Vector3)
    ensures LenSquared(a) * LenSquared(b) - Dot(a, b) * Dot(a, b)
         == (a.y * b.z - a.z * b.y) * (a.y * b.z - a.z * b.y)
          + (a.z * b.x - a.x * b.z) * (a.z * b.x - a.x * b.z)
          + (a.x * b.y - a.y * b.x) * (a.x * b.y - a.y * b.x)
  {
  }

  /** Cauchy-Schwarz: `(a · b)² <= |a|² |b|²`. */
  lemma CauchySchwarz(a: Vector3, b: Vector3)
    ensures Dot(a, b) * Dot(a, b) <= LenSquared(a) * LenSquared(b)
  {
    Lagrange(a, b);
    SumOfSquares(a.y * b.z - a.z * b.y, a.z * b.x - a.x * b.z, a.x * b.y - a.y * b.x);
  }

  lemma SumOfSquares(p: real, q: real, r: real)
    ensures 0.0 <= p * p + q * q + r * r
  {
  }

  /** A scatter vector no longer than the normal (as a point of the unit
      sphere is, against a unit normal) bounces the ray onto the normal's
      side of the surface, away from the incoming ray's side. */
  lemma BounceRayFollowsNormal(h: HitRecord, scatter: Vector3)
    requires LenSquared(scatter) <= LenSquared(h.normal)
    ensures 0.0 <= Dot(BounceRay(h, scatter).direction, h.normal)
  {
    var n := h.normal;
    var m := LenSquared(n);
    var d := Dot(scatter, n);
    CauchySchwarz(scatter, n);
    calc {
      d * d;
   <= LenSquared(scatter) * m;
   <= m * m;
    }
    SquareBound(d, m);
    DotSelf(n);
    assert Dot(Add(n, scatter), n) == m + d;
  }
}
