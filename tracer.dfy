/** `Ray::color` (src/math/ray.rs): the recursive tracer.  It picks the
    nearest object the ray hits, bounces off it and halves whatever the
    bounce ray sees; a ray that hits nothing sees the sky gradient.

    `rand_sphere_coord()` is drawn once per bounce.  Its values are a stream
    `scatter: nat -> Vector3`, and the tracer takes the position `k` of the
    next draw and returns the position after its last one. */
module Tracer {
  import opened Platform
  import opened Vectors
  import opened Rays
  import opened Objects
  import opened HitRecords

  /** The `[f64; 3]` a ray carries: one linear intensity per channel. */
  datatype Rgb = Rgb(r: real, g: real, b: real)

  const Black := Rgb(0.0, 0.0, 0.0)

  /** The scatter vectors `rand_sphere_coord()` returns, in the order they are drawn. */
  type Scatter = nat -> Vector3

  /** A traced colour and the position of the next scatter draw. */
  datatype Traced = Traced(rgb: Rgb, next: nat)

  /** A hit distance paired with the index of the object hit. */
  type Candidate = (real, nat)

  datatype Ordering = Less | Equal | Greater

  /** The comparison closure handed to `min_by`: the total order on the
      (NaN-free) distances. */
  function CompareT(t1: real, t2: real): (o: Ordering)
    ensures o == Less <==> t1 < t2
    ensures o == Greater <==> t2 < t1
    ensures o == Equal <==> t1 == t2
  {
    if t1 < t2 then Less
    else if t1 > t2 then Greater
    else Equal
  }

  /** `std::cmp::min_by(x, y, compare)`: the first argument unless it
      compares `Greater`. */
  function MinOf(x: Candidate, y: Candidate): (r: Candidate)
    ensures r == x || r == y
    ensures r.0 <= x.0 && r.0 <= y.0
    ensures x.0 <= y.0 ==> r == x
  {
    match CompareT(x.0, y.0)
    case Greater => y
    case _ => x
  }

  /** `Iterator::min_by` on a non-empty sequence: a left fold of `MinOf`. */
  function Reduce(cs: seq<Candidate>): (r: Candidate)
    requires |cs| > 0
    ensures r in cs
    ensures forall c :: c in cs ==> r.0 <= c.0
  {
    if |cs| == 1 then cs[0]
    else
      var prefix := cs[..|cs| - 1];
      var m := Reduce(prefix);
      assert forall c :: c in cs ==> c in prefix || c == cs[|cs| - 1];
      MinOf(m, cs[|cs| - 1])
  }

  /** `min_by` returns the FIRST minimum: every element before the one it
      returns is strictly larger. */
  lemma {:induction false} ReduceFirst(cs: seq<Candidate>)
    requires |cs| > 0
    ensures exists p :: 0 <= p < |cs| && cs[p] == Reduce(cs) &&
              forall j :: 0 <= j < p ==> Reduce(cs).0 < cs[j].0
  {
    if |cs| > 1 {
      var n := |cs| - 1;
      var prefix := cs[..n];
      ReduceFirst(prefix);
      var p :| 0 <= p < |prefix| && prefix[p] == Reduce(prefix) &&
                forall j :: 0 <= j < p ==> Reduce(prefix).0 < prefix[j].0;
      if Reduce(cs) == Reduce(prefix) {
        assert cs[p] == Reduce(cs);
        assert forall j :: 0 <= j < p ==> cs[j] == prefix[j];
      } else {
        // the last element is strictly smaller than every earlier minimum
        assert Reduce(cs) == cs[n] && cs[n].0 < Reduce(prefix).0;
        forall j | 0 <= j < n ensures Reduce(cs).0 < cs[j].0 {
          assert prefix[j] in prefix;
        }
        assert cs[n] == Reduce(cs);
      }
    } else {
      assert cs[0] == Reduce(cs);
    }
  }

  /** The `filter_map`: the distance and index of every object `hit_at` says
      the ray hits, in object order. */
  function Candidates(objects: seq<Object>, ray: Ray, sqrt: SqrtFn): (cs: seq<Candidate>)
    ensures forall c :: c in cs ==> c.1 < |objects| && HitAt(objects[c.1], ray, sqrt) == Some(c.0)
    ensures forall i :: 0 <= i < |objects| && HitAt(objects[i], ray, sqrt).Some? ==>
              (HitAt(objects[i], ray, sqrt).value, i) in cs
    ensures forall p, q :: 0 <= p < q < |cs| ==> cs[p].1 < cs[q].1
    decreases |objects|
  {
    if objects == [] then []
    else
      var n := |objects| - 1;
      var prefix := Candidates(objects[..n], ray, sqrt);
      assert forall i :: 0 <= i < n ==> objects[..n][i] == objects[i];
      match HitAt(objects[n], ray, sqrt)
      case Some(t) => prefix + [(t, n)]
      case None => prefix
  }

  /** `closest_object`: the nearest object `hit_at` reports a hit on, as its
      distance and index.  None is reported exactly when no object is hit. */
  function NearestHit(objects: seq<Object>, ray: Ray, sqrt: SqrtFn): (r: Option<Candidate>)
    ensures r.None? <==> forall i :: 0 <= i < |objects| ==> HitAt(objects[i], ray, sqrt).None?
    ensures r.Some? ==> r.value.1 < |objects| && HitAt(objects[r.value.1], ray, sqrt) == Some(r.value.0)
    ensures r.Some? ==> forall i :: 0 <= i < |objects| && HitAt(objects[i], ray, sqrt).Some? ==>
              r.value.0 <= HitAt(objects[i], ray, sqrt).value
  {
    var cs := Candidates(objects, ray, sqrt);
    if cs == [] then None else Some(Reduce(cs))
  }

  /** Ties go to the first object: every object before the selected one is
      either missed or hit strictly further away. */
  lemma NearestHitFirst(objects: seq<Object>, ray: Ray, sqrt: SqrtFn)
    requires NearestHit(objects, ray, sqrt).Some?
    ensures var (t, i) := NearestHit(objects, ray, sqrt).value;
      forall j :: 0 <= j < i && HitAt(objects[j], ray, sqrt).Some? ==> t < HitAt(objects[j], ray, sqrt).value
  {
    ReduceFirstMinimum(Candidates(objects, ray, sqrt));
  }

  /** Over candidates listed by object index, `Reduce` is strictly nearer
      than every candidate for an earlier object. */
  lemma ReduceFirstMinimum(cs: seq<Candidate>)
    requires |cs| > 0
    requires forall a, b :: 0 <= a < b < |cs| ==> cs[a].1 < cs[b].1
    ensures forall c :: c in cs && c.1 < Reduce(cs).1 ==> Reduce(cs).0 < c.0
  {
    ReduceFirst(cs);
    var p :| 0 <= p < |cs| && cs[p] == Reduce(cs) && forall j :: 0 <= j < p ==> Reduce(cs).0 < cs[j].0;
    forall c | c in cs && c.1 < Reduce(cs).1
      ensures Reduce(cs).0 < c.0
    {
      var q :| 0 <= q < |cs| && cs[q] == c;
      EarlierCandidateFurther(cs, p, q);
    }
  }

  /** In candidates listed by object index, one for an earlier object than
      the first minimum `cs[p]` lies strictly further away. */
  lemma EarlierCandidateFurther(cs: seq<Candidate>, p: nat, q: nat)
    requires p < |cs| && q < |cs|
    requires forall a, b :: 0 <= a < b < |cs| ==> cs[a].1 < cs[b].1
    requires forall j :: 0 <= j < p ==> cs[p].0 < cs[j].0
    requires cs[q].1 < cs[p].1
    ensures cs[p].0 < cs[q].0
  {
    assert q < p;
  }

  /** The sky gradient for a ray that hits nothing: `t = (y + 1) / 2` blends
      white into a light blue.  Blue is always full. */
  function Background(ray: Ray): (c: Rgb)
    ensures c.r == 0.75 - 0.25 * ray.direction.y
    ensures c.g == 0.85 - 0.15 * ray.direction.y
    ensures c.b == 1.0
  {
    var t := 0.5 * (ray.direction.y + 1.0);
    var base := 1.0 - t;
    Rgb(0.5 * t + base, 0.7 * t + base, t + base)
  }

  /** Straight up is light blue, straight down is white. */
  lemma BackgroundEndpoints(origin: Vector3, x: real, z: real)
    ensures Background(Ray(origin, Vector3(x, 1.0, z))) == Rgb(0.5, 0.7, 1.0)
    ensures Background(Ray(origin, Vector3(x, -1.0, z))) == Rgb(1.0, 1.0, 1.0)
  {
  }

  /** Every channel halved: the 50% energy loss per bounce. */
  function Half(c: Rgb): (h: Rgb)
    ensures h.r + h.r == c.r && h.g + h.g == c.g && h.b + h.b == c.b
  {
    Rgb(c.r / 2.0, c.g / 2.0, c.b / 2.0)
  }

  /** The ray that bounces off object `o` hit at distance `t`: from the hit
      point, along the sphere's normal there (turned to face the ray) plus a
      scatter vector. */
  function Bounce(ray: Ray, o: Object, t: real, sqrt: SqrtFn, scatter: Vector3): (r: Ray)
    ensures r.origin == At(ray, t)
  {
    var location := At(ray, t);
    var normal := Normalize(Sub(location, PositionOf(o)), sqrt);
    BounceRay(NewHitRecord(location, normal, ray.direction, t), scatter)
  }

  /** Without the scatter vector the bounce follows the surface normal: the
      radius `at(t) - centre` or its opposite, divided by its length, so a
      vector of length one (zero only when the hit point is the sphere's
      centre) that opposes the incoming ray. */
  lemma BounceDirection(ray: Ray, o: Object, t: real, sqrt: SqrtFn, scatter: Vector3)
    requires IsSqrt(sqrt)
    ensures var n := Sub(Bounce(ray, o, t, sqrt, scatter).direction, scatter);
      LenSquared(n) <= 1.0 &&
      (At(ray, t) != PositionOf(o) ==> LenSquared(n) == 1.0) &&
      Dot(n, ray.direction) <= 0.0
    ensures var n, v := Sub(Bounce(ray, o, t, sqrt, scatter).direction, scatter), Sub(At(ray, t), PositionOf(o));
      Scale(n, Len(v, sqrt)) == v || Scale(n, Len(v, sqrt)) == Scale(v, -1.0)
  {
    var location := At(ray, t);
    var v := Sub(location, PositionOf(o));
    var n := Sub(Bounce(ray, o, t, sqrt, scatter).direction, scatter);
    BounceLeavesNormal(ray, o, t, sqrt, scatter);
    assert n == NewHitRecord(location, Normalize(v, sqrt), ray.direction, t).normal;
    SubZero(location, PositionOf(o));
    NormalUnit(location, v, ray.direction, t, sqrt);
    NormalRadial(location, v, ray.direction, t, sqrt);
  }

  /** Taking the scatter vector off the bounce direction leaves the normal
      that the hit record stores. */
  lemma BounceLeavesNormal(ray: Ray, o: Object, t: real, sqrt: SqrtFn, scatter: Vector3)
    ensures Sub(Bounce(ray, o, t, sqrt, scatter).direction, scatter)
         == NewHitRecord(At(ray, t), Normalize(Sub(At(ray, t), PositionOf(o)), sqrt), ray.direction, t).normal
  {
    var h := NewHitRecord(At(ray, t), Normalize(Sub(At(ray, t), PositionOf(o)), sqrt), ray.direction, t);
    assert Bounce(ray, o, t, sqrt, scatter).direction == Add(h.normal, scatter);
  }

  /** The normal a hit record stores for the outward direction `v`
      normalised has length at most one, exactly one for a non-zero `v`, and
      opposes the ray. */
  lemma NormalUnit(location: Vector3, v: Vector3, rayDirection: Vector3, t: real, sqrt: SqrtFn)
    requires IsSqrt(sqrt)
    ensures var h := NewHitRecord(location, Normalize(v, sqrt), rayDirection, t);
      LenSquared(h.normal) <= 1.0 && (v != Zero ==> LenSquared(h.normal) == 1.0) &&
      Dot(h.normal, rayDirection) <= 0.0
  {
    NormalizeAtMostUnit(v, sqrt);
    if v != Zero {
      NormalizeIsUnit(v, sqrt);
    }
  }

  /** The normal a hit record stores for the outward direction `v`
      normalised, scaled back by `v`'s length, is `v` or its opposite. */
  lemma NormalRadial(location: Vector3, v: Vector3, rayDirection: Vector3, t: real, sqrt: SqrtFn)
    requires IsSqrt(sqrt)
    ensures var h := NewHitRecord(location, Normalize(v, sqrt), rayDirection, t);
      Scale(h.normal, Len(v, sqrt)) == v || Scale(h.normal, Len(v, sqrt)) == Scale(v, -1.0)
  {
    var normal := Normalize(v, sqrt);
    NormalizeKeepsDirection(v, sqrt);
    if Dot(rayDirection, normal) >= 0.0 {
      FlipCommutesWithScale(normal, Len(v, sqrt));
    }
  }

  /** Flipping a vector and scaling it can be done in either order. */
  lemma FlipCommutesWithScale(n: Vector3, l: real)
    ensures Scale(Scale(n, -1.0), l) == Scale(Scale(n, l), -1.0)
  {
    assert (n.x * -1.0) * l == (n.x * l) * -1.0;
    assert (n.y * -1.0) * l == (n.y * l) * -1.0;
    assert (n.z * -1.0) * l == (n.z * l) * -1.0;
  }

  /** `Ray::color(objects, depth)`, with the scatter stream read from position
      `k`.  Each recursive call has one less depth, so at most `depth` rays are
      traced and at most `depth` scatter vectors drawn. */
  function RayColor(ray: Ray, objects: seq<Object>, depth: nat, sqrt: SqrtFn, scatter: Scatter, k: nat): (res: Traced)
    ensures k <= res.next <= k + depth
    decreases depth
  {
    if depth == 0 then Traced(Black, k)
    else
      match NearestHit(objects, ray, sqrt)
      case Some((t, i)) =>
        var c := RayColor(Bounce(ray, objects[i], t, sqrt, scatter(k)), objects, depth - 1, sqrt, scatter, k + 1);
        Traced(Half(c.rgb), c.next)
      case None => Traced(Background(ray), k)
  }

  /** Depth zero is black, whatever the ray and the scene, and draws nothing. */
  lemma RayColorDepthZero(ray: Ray, objects: seq<Object>, sqrt: SqrtFn, scatter: Scatter, k: nat)
    ensures RayColor(ray, objects, 0, sqrt, scatter, k) == Traced(Black, k)
  {
  }

  /** A ray that hits no object sees the sky and draws nothing. */
  lemma RayColorMiss(ray: Ray, objects: seq<Object>, depth: nat, sqrt: SqrtFn, scatter: Scatter, k: nat)
    requires depth > 0
    requires forall i :: 0 <= i < |objects| ==> HitAt(objects[i], ray, sqrt).None?
    ensures RayColor(ray, objects, depth, sqrt, scatter, k) == Traced(Background(ray), k)
  {
  }

  /** On a hit, each channel at depth `d + 1` is exactly half of what the
      bounce ray sees at depth `d`, traced after the one scatter draw this
      bounce made. */
  lemma RayColorHit(ray: Ray, objects: seq<Object>, d: nat, sqrt: SqrtFn, scatter: Scatter, k: nat)
    requires NearestHit(objects, ray, sqrt).Some?
    ensures var (t, i) := NearestHit(objects, ray, sqrt).value;
      var c := RayColor(Bounce(ray, objects[i], t, sqrt, scatter(k)), objects, d, sqrt, scatter, k + 1);
      RayColor(ray, objects, d + 1, sqrt, scatter, k) == Traced(Half(c.rgb), c.next)
  {
  }

  ghost predicate InRange(c: Rgb, lo: real, hi: real) {
    lo <= c.r <= hi && lo <= c.g <= hi && lo <= c.b <= hi
  }

  /** Every scatter vector lies in the unit ball. */
  ghost predicate InUnitBall(scatter: Scatter) {
    forall n :: LenSquared(scatter(n)) <= 1.0
  }

  /** The sky seen along a direction whose vertical component lies in
      `[-2, 2]` has every channel in `[0, 1.25]`. */
  lemma BackgroundBounded(ray: Ray)
    requires -2.0 <= ray.direction.y <= 2.0
    ensures InRange(Background(ray), 0.0, 1.25)
  {
  }

  /** The sky seen along a direction whose vertical component lies in
      `[-1, 1]` has every channel in `[0.5, 1]`. */
  lemma BackgroundUnitBounded(ray: Ray)
    requires -1.0 <= ray.direction.y <= 1.0
    ensures InRange(Background(ray), 0.5, 1.0)
  {
  }

  /** A bounce with a scatter vector from the unit ball leaves with a
      vertical component in `[-2, 2]`. */
  lemma BounceVertical(ray: Ray, o: Object, t: real, sqrt: SqrtFn, scatter: Vector3)
    requires IsSqrt(sqrt) && LenSquared(scatter) <= 1.0
    ensures -2.0 <= Bounce(ray, o, t, sqrt, scatter).direction.y <= 2.0
  {
    var b := Bounce(ray, o, t, sqrt, scatter);
    BounceDirection(ray, o, t, sqrt, scatter);
    var n := Sub(b.direction, scatter);
    ComponentsOfShortVector(n);
    ComponentsOfShortVector(scatter);
    assert b.direction.y == n.y + scatter.y;
  }

  /** On a hit, a bound `[0, hi]` on what the bounce ray sees one level
      down (`depth == d + 1`) becomes `[0, hi / 2]`: the bounce halves every
      channel. */
  lemma HitHalvesBound(ray: Ray, objects: seq<Object>, depth: nat, d: nat, sqrt: SqrtFn, scatter: Scatter, k: nat, hi: real)
    requires depth == d + 1 && NearestHit(objects, ray, sqrt).Some? && 0.0 <= hi
    requires var hit := NearestHit(objects, ray, sqrt).value;
      InRange(RayColor(Bounce(ray, objects[hit.1], hit.0, sqrt, scatter(k)), objects, d, sqrt, scatter, k + 1).rgb, 0.0, hi)
    ensures InRange(RayColor(ray, objects, depth, sqrt, scatter, k).rgb, 0.0, hi / 2.0)
  {
    RayColorHit(ray, objects, d, sqrt, scatter, k);
  }

  /** A channel bound on the sky carries over to a ray that hits nothing. */
  lemma MissSeesSky(ray: Ray, objects: seq<Object>, depth: nat, sqrt: SqrtFn, scatter: Scatter, k: nat)
    requires depth > 0 && NearestHit(objects, ray, sqrt).None?
    ensures RayColor(ray, objects, depth, sqrt, scatter, k).rgb == Background(ray)
  {
  }

  /** A bounce ray, and any ray whose direction's vertical component lies in
      `[-2, 2]`, sees channels in `[0, 1.25]`: the sky is never negative, and
      a hit only halves. */
  lemma {:induction false} RayColorBounded(ray: Ray, objects: seq<Object>, depth: nat, sqrt: SqrtFn, scatter: Scatter, k: nat)
    requires IsSqrt(sqrt) && InUnitBall(scatter)
    requires -2.0 <= ray.direction.y <= 2.0
    ensures InRange(RayColor(ray, objects, depth, sqrt, scatter, k).rgb, 0.0, 1.25)
    decreases depth
  {
    if depth == 0 {
      RayColorDepthZero(ray, objects, sqrt, scatter, k);
    } else if NearestHit(objects, ray, sqrt).Some? {
      var hit := NearestHit(objects, ray, sqrt).value;
      BounceVertical(ray, objects[hit.1], hit.0, sqrt, scatter(k));
      var d: nat := depth - 1;
      RayColorBounded(Bounce(ray, objects[hit.1], hit.0, sqrt, scatter(k)), objects, d, sqrt, scatter, k + 1);
      HitHalvesBound(ray, objects, depth, d, sqrt, scatter, k, 1.25);
    } else {
      MissSeesSky(ray, objects, depth, sqrt, scatter, k);
      BackgroundBounded(ray);
    }
  }

  /** A ray of at most unit length, like every ray `Ray::new` makes, sees
      channels in `[0, 1]`. */
  lemma RayColorInUnitRange(ray: Ray, objects: seq<Object>, depth: nat, sqrt: SqrtFn, scatter: Scatter, k: nat)
    requires IsSqrt(sqrt) && InUnitBall(scatter)
    requires LenSquared(ray.direction) <= 1.0
    ensures InRange(RayColor(ray, objects, depth, sqrt, scatter, k).rgb, 0.0, 1.0)
  {
    ComponentsOfShortVector(ray.direction);
    if depth == 0 {
      RayColorDepthZero(ray, objects, sqrt, scatter, k);
    } else if NearestHit(objects, ray, sqrt).Some? {
      var hit := NearestHit(objects, ray, sqrt).value;
      BounceVertical(ray, objects[hit.1], hit.0, sqrt, scatter(k));
      var d: nat := depth - 1;
      RayColorBounded(Bounce(ray, objects[hit.1], hit.0, sqrt, scatter(k)), objects, d, sqrt, scatter, k + 1);
      HitHalvesBound(ray, objects, depth, d, sqrt, scatter, k, 1.25);
    } else {
      MissSeesSky(ray, objects, depth, sqrt, scatter, k);
      BackgroundUnitBounded(ray);
    }
  }
}
