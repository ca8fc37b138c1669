/** The `Object` contract and its one implementation, `Sphere`
    (src/world/object.rs).  The trait object `Box<dyn Object>` becomes a
    datatype with a single variant. */
module Objects {
  import opened Platform
  import opened Vectors
  import opened Colors
  import opened Rays

  /** `Sphere::new(position, radius, color)` is this constructor. */
  datatype Object = Sphere(position: Vector3, radius: real, color: Color)

  /** `Object::color`: rebuilding the sphere with the returned colour gives it back. */
  function ColorOf(o: Object): (c: Color)
    ensures Sphere(o.position, o.radius, c) == o
  {
    match o
    case Sphere(_, _, color) => color
  }

  /** `Object::position`: the sphere's centre, as `Sphere::new` stored it. */
  function PositionOf(o: Object): (p: Vector3)
    ensures Sphere(p, o.radius, o.color) == o
  {
    match o
    case Sphere(position, _, _) => position
  }

  /** `Sphere::hit_at`: the smaller root of `a t² + b t + c = 0`, or `None`
      when the discriminant is negative.  Roots behind the ray's origin are
      not rejected.  For a zero direction (`a == 0`) the source divides by
      zero and returns a NaN distance; the model reports no hit. */
  function HitAt(o: Object, ray: Ray, sqrt: SqrtFn): (r: Option<real>)
    ensures r.None? <==> Discriminant(o, ray) < 0.0 || QuadA(ray) == 0.0
    ensures r.Some? ==> 2.0 * QuadA(ray) * r.value == -QuadB(o, ray) - sqrt(Discriminant(o, ray))
  {
    var a := QuadA(ray);
    var b := QuadB(o, ray);
    var discriminant := Discriminant(o, ray);
    if discriminant < 0.0 then None
    else if a == 0.0 then None
    else
      QuotientTimesDivisor(-b - sqrt(discriminant), 2.0 * a);
      Some((-b - sqrt(discriminant)) / (2.0 * a))
  }

  // ---- the coefficients `hit_at` computes, with `oc = origin - position` ----

  /** `a = D · D` */
  function QuadA(ray: Ray): real {
    Dot(ray.direction, ray.direction)
  }

  /** `b = 2 (oc · D)` */
  function QuadB(o: Object, ray: Ray): real {
    Dot(Sub(ray.origin, PositionOf(o)), ray.direction) * 2.0
  }

  /** `c = oc · oc - r²` */
  function QuadC(o: Object, ray: Ray): real {
    var oc := Sub(ray.origin, PositionOf(o));
    Dot(oc, oc) - o.radius * o.radius
  }

  /** `b² - 4ac` */
  function Discriminant(o: Object, ray: Ray): real {
    var a, b, c := QuadA(ray), QuadB(o, ray), QuadC(o, ray);
    b * b - 4.0 * a * c
  }

  /** The point at distance `t` along the ray lies on the sphere's surface. */
  ghost predicate OnSurface(o: Object, ray: Ray, t: real) {
    LenSquared(Sub(At(ray, t), o.position)) == o.radius * o.radius
  }

  lemma ComponentSquare(p: real, q: real, t: real)
    ensures (p + q * t) * (p + q * t) == p * p + t * (2.0 * (p * q)) + (t * t) * (q * q)
  {
  }

  /** `|O + tD - C|² - r²` is the quadratic whose coefficients `hit_at` computes. */
  lemma SurfaceQuadratic(o: Object, ray: Ray, t: real)
    ensures LenSquared(Sub(At(ray, t), o.position)) - o.radius * o.radius
         == QuadA(ray) * (t * t) + QuadB(o, ray) * t + QuadC(o, ray)
  {
    var c := PositionOf(o);
    assert c == o.position;
    var p, oc, d := Sub(At(ray, t), c), Sub(ray.origin, c), ray.direction;
    AtRelative(ray, t, c);
    ShiftedSquares(p.x, p.y, p.z, oc.x, oc.y, oc.z, d.x, d.y, d.z, t, o.radius,
                   LenSquared(p), QuadA(ray), QuadB(o, ray), QuadC(o, ray));
  }

  /** The point at distance `t`, seen from `c`, is `(O - c) + t D`. */
  lemma AtRelative(ray: Ray, t: real, c: Vector3)
    ensures var p, oc := Sub(At(ray, t), c), Sub(ray.origin, c);
      p.x == oc.x + ray.direction.x * t && p.y == oc.y + ray.direction.y * t && p.z == oc.z + ray.direction.z * t
  {
  }

  /** The expansion below, for a point `p = oc + t d` given by its components,
      less `r²`, with the squared length `l` and the coefficients `a`, `b`, `c`
      named. */
  lemma ShiftedSquares(px: real, py: real, pz: real, ox: real, oy: real, oz: real, dx: real, dy: real, dz: real,
                       t: real, r: real, l: real, a: real, b: real, c: real)
    requires px == ox + dx * t && py == oy + dy * t && pz == oz + dz * t
    requires l == px * px + py * py + pz * pz
    requires a == dx * dx + dy * dy + dz * dz
    requires b == (ox * dx + oy * dy + oz * dz) * 2.0
    requires c == (ox * ox + oy * oy + oz * oz) - r * r
    ensures l - r * r == a * (t * t) + b * t + c
  {
    SumOfComponentSquares(ox, oy, oz, dx, dy, dz, t);
  }

  /** Expanding `|oc + t d|²` component by component. */
  lemma SumOfComponentSquares(ox: real, oy: real, oz: real, dx: real, dy: real, dz: real, t: real)
    ensures (ox + dx * t) * (ox + dx * t) + (oy + dy * t) * (oy + dy * t) + (oz + dz * t) * (oz + dz * t)
         == (dx * dx + dy * dy + dz * dz) * (t * t)
          + ((ox * dx + oy * dy + oz * dz) * 2.0) * t
          + (ox * ox + oy * oy + oz * oz)
  {
    ComponentSquare(ox, dx, t);
    ComponentSquare(oy, dy, t);
    ComponentSquare(oz, dz, t);
  }

  /** Completing the square: `4a (a t² + b t + c) = (2 a t + b)² - (b² - 4ac)`. */
  lemma CompleteSquare(a: real, b: real, c: real, t: real)
    ensures 4.0 * a * (a * (t * t) + b * t + c)
         == (2.0 * a * t + b) * (2.0 * a * t + b) - (b * b - 4.0 * a * c)
  {
  }

  lemma QuotientTimesDivisor(x: real, y: real)
    requires y != 0.0
    ensures (x / y) * y == x
  {
  }

  lemma ZeroProduct(x: real, y: real)
    requires x != 0.0 && x * y == 0.0
    ensures y == 0.0
  {
    calc { y; == (x * y) / x; == 0.0 / x; == 0.0; }
  }

  /** `hit_at` answers `None` exactly when the discriminant is negative or the direction is zero. */
  lemma HitAtNone(o: Object, ray: Ray, sqrt: SqrtFn)
    ensures HitAt(o, ray, sqrt).None? <==> Discriminant(o, ray) < 0.0 || ray.direction == Zero
  {
    DotSelf(ray.direction);
    LenSquaredZero(ray.direction);
  }

  /** When `hit_at` returns `Some(t)`, the point at `t` lies on the sphere. */
  lemma HitAtOnSurface(o: Object, ray: Ray, sqrt: SqrtFn)
    requires IsSqrt(sqrt)
    requires HitAt(o, ray, sqrt).Some?
    ensures OnSurface(o, ray, HitAt(o, ray, sqrt).value)
  {
    var s := sqrt(Discriminant(o, ray));
    assert s * s == Discriminant(o, ray);
    RootOnSurface(o, ray, HitAt(o, ray, sqrt).value, s);
  }

  /** A root of the quadratic `hit_at` computes lies on the surface. */
  lemma RootOnSurface(o: Object, ray: Ray, t: real, s: real)
    requires QuadA(ray) != 0.0 && s * s == Discriminant(o, ray)
    requires 2.0 * QuadA(ray) * t == -QuadB(o, ray) - s
    ensures OnSurface(o, ray, t)
  {
    QuadraticRoot(QuadA(ray), QuadB(o, ray), QuadC(o, ray), s, t);
    SurfaceQuadratic(o, ray, t);
  }

  /** `t = (-b - s) / 2a` with `s² = b² - 4ac` is a root of `a t² + b t + c`. */
  lemma QuadraticRoot(a: real, b: real, c: real, s: real, t: real)
    requires a != 0.0 && s * s == b * b - 4.0 * a * c && 2.0 * a * t == -b - s
    ensures a * (t * t) + b * t + c == 0.0
  {
    var u := 2.0 * a * t + b;
    assert u == -s;
    calc { u * u; == (-s) * (-s); == s * s; }
    CompleteSquare(a, b, c, t);
    assert 4.0 * a * (a * (t * t) + b * t + c) == 0.0;
    ZeroProduct(4.0 * a, a * (t * t) + b * t + c);
  }

  /** When `hit_at` returns `None` for a ray with a non-zero direction, no
      point of the ray's line lies on the sphere. */
  lemma HitAtMiss(o: Object, ray: Ray, sqrt: SqrtFn, t: real)
    requires ray.direction != Zero
    requires HitAt(o, ray, sqrt).None?
    ensures !OnSurface(o, ray, t)
  {
    HitAtNone(o, ray, sqrt);
    var a, b, c := QuadA(ray), QuadB(o, ray), QuadC(o, ray);
    DotSelf(ray.direction);
    LenSquaredZero(ray.direction);
    assert 0.0 < a;
    var u := 2.0 * a * t + b;
    assert 0.0 <= u * u;
    CompleteSquare(a, b, c, t);
    assert 0.0 < 4.0 * a * (a * (t * t) + b * t + c);
    SurfaceQuadratic(o, ray, t);
  }

  /** `hit_at` returns the nearest of the two intersections: no point of the
      sphere lies on the ray's line at a smaller `t`. */
  lemma HitAtNearest(o: Object, ray: Ray, sqrt: SqrtFn, t': real)
    requires IsSqrt(sqrt)
    requires HitAt(o, ray, sqrt).Some?
    requires OnSurface(o, ray, t')
    ensures HitAt(o, ray, sqrt).value <= t'
  {
    DotSelf(ray.direction);
    SurfaceQuadratic(o, ray, t');
    SmallerRoot(QuadA(ray), QuadB(o, ray), QuadC(o, ray), sqrt(Discriminant(o, ray)),
                HitAt(o, ray, sqrt).value, t');
  }

  /** `(-b - √(b² - 4ac)) / 2a` is the smaller root of `a t² + b t + c` when `a > 0`. */
  lemma SmallerRoot(a: real, b: real, c: real, s: real, t: real, t': real)
    requires 0.0 < a && 0.0 <= s && s * s == b * b - 4.0 * a * c
    requires 2.0 * a * t == -b - s
    requires a * (t' * t') + b * t' + c == 0.0
    ensures t <= t'
  {
    var u := 2.0 * a * t' + b;
    CompleteSquare(a, b, c, t');
    assert u * u == s * s;
    SquareRootsOf(u, s);
    var k := 2.0 * a;
    calc {
      k * t;
   == -b - s;
   <= -b + u;
   == k * t';
    }
    MulCancel(k, t, t');
  }

  /** A number whose square is `s²` is `s` or `-s`. */
  lemma SquareRootsOf(u: real, s: real)
    requires 0.0 <= s && u * u == s * s
    ensures -s <= u
  {
    calc { (u - s) * (u + s); == u * u - s * s; == 0.0; }
    if u + s != 0.0 {
      ZeroProduct(u + s, u - s);
    }
  }

  lemma MulCancel(k: real, x: real, y: real)
    requires 0.0 < k && k * x <= k * y
    ensures x <= y
  {
    calc {
      y - x;
   == (k * y - k * x) / k;
   >= 0.0;
    }
  }

  /** With a non-zero direction, `hit_at` reports a hit exactly when the ray's line meets the sphere. */
  lemma HitAtExactlyWhenMeets(o: Object, ray: Ray, sqrt: SqrtFn)
    requires IsSqrt(sqrt)
    requires ray.direction != Zero
    ensures HitAt(o, ray, sqrt).Some? <==> exists t :: OnSurface(o, ray, t)
  {
    if HitAt(o, ray, sqrt).Some? {
      HitAtOnSurface(o, ray, sqrt);
    } else {
      forall t ensures !OnSurface(o, ray, t) {
        HitAtMiss(o, ray, sqrt, t);
      }
    }
  }

  /** A ray from the origin along `-z` meets a sphere of radius `r` centred at
      `(0, 0, p)` first at `t = -p - r`, wherever the sphere lies. */
  lemma HitAtAlongAxis(p: real, r: real, color: Color, sqrt: SqrtFn)
    requires IsSqrt(sqrt) && 0.0 <= r
    ensures HitAt(Sphere(Vector3(0.0, 0.0, p), r, color), Ray(Zero, Vector3(0.0, 0.0, -1.0)), sqrt)
         == Some(-p - r)
  {
    var o, ray := Sphere(Vector3(0.0, 0.0, p), r, color), Ray(Zero, Vector3(0.0, 0.0, -1.0));
    var oc := Sub(ray.origin, PositionOf(o));
    assert oc == Vector3(0.0, 0.0, -p);
    assert QuadA(ray) == 1.0;
    assert QuadB(o, ray) == 2.0 * p;
    assert QuadC(o, ray) == p * p - r * r;
    calc {
      Discriminant(o, ray);
   == (2.0 * p) * (2.0 * p) - 4.0 * 1.0 * (p * p - r * r);
   == (2.0 * r) * (2.0 * r);
    }
    SqrtOfSquare(sqrt, Discriminant(o, ray), 2.0 * r);
  }

  /** Negative distances are returned: a sphere wholly behind the ray's origin
      is still hit, at `t = -6`. */
  lemma HitAtBehindOrigin(sqrt: SqrtFn)
    requires IsSqrt(sqrt)
    ensures HitAt(Sphere(Vector3(0.0, 0.0, 5.0), 1.0, Color(0, 0, 0)),
                  Ray(Zero, Vector3(0.0, 0.0, -1.0)), sqrt) == Some(-6.0)
  {
    HitAtAlongAxis(5.0, 1.0, Color(0, 0, 0), sqrt);
  }

  /** A sphere of radius 0.5 at (0, 0, -1) is hit at `t = 0.5` by a ray from
      the origin along -z. */
  lemma HitAtInFront(sqrt: SqrtFn)
    requires IsSqrt(sqrt)
    ensures HitAt(Sphere(Vector3(0.0, 0.0, -1.0), 0.5, Color(0, 0, 0)),
                  Ray(Zero, Vector3(0.0, 0.0, -1.0)), sqrt) == Some(0.5)
  {
    HitAtAlongAxis(-1.0, 0.5, Color(0, 0, 0), sqrt);
  }

  /** `color()` and `position()` return what `Sphere::new` stored. */
  lemma AccessorsOfNew(position: Vector3, radius: real, color: Color)
    ensures ColorOf(Sphere(position, radius, color)) == color
    ensures PositionOf(Sphere(position, radius, color)) == position
  {
  }
}
