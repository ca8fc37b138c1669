/** `Vector3` (src/math/vector.rs): a value type of three reals with
    component-wise arithmetic, the dot product, length and normalisation. */
module Vectors {
  import opened Platform

  datatype Vector3 = Vector3(x: real, y: real, z: real)

  const Zero := Vector3(0.0, 0.0, 0.0)

  /** `get(index)`; any index other than 0, 1 or 2 panics, so callers must stay below 3. */
  function Get(v: Vector3, index: nat): (c: real)
    requires index < 3
    ensures c == [v.x, v.y, v.z][index]
  {
    match index
    case 0 => v.x
    case 1 => v.y
    case 2 => v.z
  }

  function LenSquared(v: Vector3): (r: real)
    ensures 0.0 <= r
  {
    (v.x * v.x) + (v.y * v.y) + (v.z * v.z)
  }

  /** `len`: with a square root, the non-negative root of `len_squared`. */
  function Len(v: Vector3, sqrt: SqrtFn): (l: real)
    ensures IsSqrt(sqrt) ==> 0.0 <= l && l * l == LenSquared(v)
  {
    var sq := LenSquared(v);
    assert IsSqrt(sqrt) ==> 0.0 <= sqrt(sq) && sqrt(sq) * sqrt(sq) == sq;
    sqrt(sq)
  }

  function Dot(a: Vector3, b: Vector3): real {
    a.x * b.x + a.y * b.y + a.z * b.z
  }

  /** `normalize`.  The source divides by the length unconditionally, which
      yields NaN components for a zero-length vector; the model has no NaN
      and returns such a vector unchanged. */
  function Normalize(v: Vector3, sqrt: SqrtFn): (n: Vector3)
    ensures Len(v, sqrt) == 0.0 ==> n == v
    ensures Len(v, sqrt) != 0.0 ==> Scale(n, Len(v, sqrt)) == v
  {
    var len := Len(v, sqrt);
    if len == 0.0 then v
    else
      assert (v.x / len) * len == v.x && (v.y / len) * len == v.y && (v.z / len) * len == v.z;
      Vector3(v.x / len, v.y / len, v.z / len)
  }

  /** The `+`, `-`, `* f64` and `/ f64` operators.  Subtraction undoes addition. */
  function Add(a: Vector3, b: Vector3): (r: Vector3)
    ensures Sub(r, b) == a
  {
    Vector3(a.x + b.x, a.y + b.y, a.z + b.z)
  }

  function Sub(a: Vector3, b: Vector3): Vector3 {
    Vector3(a.x - b.x, a.y - b.y, a.z - b.z)
  }

  function Scale(v: Vector3, s: real): Vector3 {
    Vector3(v.x * s, v.y * s, v.z * s)
  }

  /** Multiplying back by the divisor gives the original components. */
  function Div(v: Vector3, s: real): (r: Vector3)
    requires s != 0.0
    ensures r.x * s == v.x && r.y * s == v.y && r.z * s == v.z
  {
    Vector3(v.x / s, v.y / s, v.z / s)
  }

  lemma SquarePositive(a: real)
    requires a != 0.0
    ensures 0.0 < a * a
  {
    if a < 0.0 {
      calc { a * a; == (-a) * (-a); > 0.0; }
    }
  }

  /** Only the zero vector has zero squared length. */
  lemma LenSquaredZero(v: Vector3)
    ensures LenSquared(v) == 0.0 <==> v == Zero
  {
    if v.x != 0.0 {
      SquarePositive(v.x);
      calc { LenSquared(v); >= v.x * v.x + v.y * v.y; >= v.x * v.x; > 0.0; }
    } else if v.y != 0.0 {
      SquarePositive(v.y);
      calc { LenSquared(v); >= v.x * v.x + v.y * v.y; >= v.y * v.y; > 0.0; }
    } else if v.z != 0.0 {
      SquarePositive(v.z);
      calc { LenSquared(v); >= v.z * v.z; > 0.0; }
    }
  }

  /** The difference is zero exactly when the two vectors are equal. */
  lemma SubZero(a: Vector3, b: Vector3)
    ensures Sub(a, b) == Zero <==> a == b
  {
  }

  // ---- component-wise laws, stated through `Get` ----

  lemma AddComponentwise(a: Vector3, b: Vector3)
    ensures forall i :: 0 <= i < 3 ==> Get(Add(a, b), i) == Get(a, i) + Get(b, i)
  {
  }

  lemma SubComponentwise(a: Vector3, b: Vector3)
    ensures forall i :: 0 <= i < 3 ==> Get(Sub(a, b), i) == Get(a, i) - Get(b, i)
  {
  }

  lemma ScaleComponentwise(v: Vector3, s: real)
    ensures forall i :: 0 <= i < 3 ==> Get(Scale(v, s), i) == Get(v, i) * s
  {
  }

  lemma DivComponentwise(v: Vector3, s: real)
    requires s != 0.0
    ensures forall i :: 0 <= i < 3 ==> Get(Div(v, s), i) == Get(v, i) / s
  {
  }

  // ---- algebraic laws ----

  lemma ScaleOne(v: Vector3)
    ensures Scale(v, 1.0) == v
  {
  }

  lemma ScaleZero(v: Vector3)
    ensures Scale(v, 0.0) == Zero
  {
  }

  /** Dividing by a non-zero `s` undoes scaling by it. */
  lemma DivUndoesScale(v: Vector3, s: real)
    requires s != 0.0
    ensures Div(Scale(v, s), s) == v
  {
    assert (v.x * s) / s == v.x && (v.y * s) / s == v.y && (v.z * s) / s == v.z;
  }

  lemma DotSymmetric(a: Vector3, b: Vector3)
    ensures Dot(a, b) == Dot(b, a)
  {
  }

  lemma DotSelf(v: Vector3)
    ensures Dot(v, v) == LenSquared(v)
  {
  }

  /** `len` is zero only for the zero vector. */
  lemma LenZero(v: Vector3, sqrt: SqrtFn)
    requires IsSqrt(sqrt)
    ensures Len(v, sqrt) == 0.0 <==> v == Zero
  {
    var sq := LenSquared(v);
    SqrtPositive(sqrt, sq);
    LenSquaredZero(v);
  }

  /** Scaling twice is scaling once by the product. */
  lemma ScaleScale(v: Vector3, a: real, b: real)
    ensures Scale(Scale(v, a), b) == Scale(v, a * b)
  {
    assert (v.x * a) * b == v.x * (a * b);
    assert (v.y * a) * b == v.y * (a * b);
    assert (v.z * a) * b == v.z * (a * b);
  }

  /** Scaling by `s` scales the squared length by `s * s`. */
  lemma LenSquaredScale(v: Vector3, s: real)
    ensures LenSquared(Scale(v, s)) == (s * s) * LenSquared(v)
  {
    calc {
      LenSquared(Scale(v, s));
      (v.x * s) * (v.x * s) + (v.y * s) * (v.y * s) + (v.z * s) * (v.z * s);
      (s * s) * (v.x * v.x) + (s * s) * (v.y * v.y) + (s * s) * (v.z * v.z);
      (s * s) * LenSquared(v);
    }
  }

  /** A non-zero vector normalises to unit length. */
  lemma NormalizeIsUnit(v: Vector3, sqrt: SqrtFn)
    requires IsSqrt(sqrt)
    requires v != Zero
    ensures LenSquared(Normalize(v, sqrt)) == 1.0
  {
    var l := Len(v, sqrt);
    LenZero(v, sqrt);
    var inv := 1.0 / l;
    assert Normalize(v, sqrt) == Scale(v, inv);
    LenSquaredScale(v, inv);
    calc {
      LenSquared(Normalize(v, sqrt));
      (inv * inv) * LenSquared(v);
      (inv * inv) * (l * l);
      (inv * l) * (inv * l);
      1.0 * 1.0;
      1.0;
    }
  }

  /** Normalising keeps the direction: scaling the result back by the length gives `v`. */
  lemma NormalizeKeepsDirection(v: Vector3, sqrt: SqrtFn)
    requires IsSqrt(sqrt)
    ensures Scale(Normalize(v, sqrt), Len(v, sqrt)) == v
  {
    LenZero(v, sqrt);
    var l := Len(v, sqrt);
    if l != 0.0 {
      assert (v.x / l) * l == v.x && (v.y / l) * l == v.y && (v.z / l) * l == v.z;
    }
  }

  /** Normalising never produces a vector longer than one: a zero vector stays zero. */
  lemma NormalizeAtMostUnit(v: Vector3, sqrt: SqrtFn)
    requires IsSqrt(sqrt)
    ensures LenSquared(Normalize(v, sqrt)) <= 1.0
  {
    if v != Zero {
      NormalizeIsUnit(v, sqrt);
    } else {
      LenZero(v, sqrt);
    }
  }

  lemma SquareGrows(p: real, q: real)
    requires 0.0 <= p < q
    ensures p * p < q * q
  {
    calc { p * p; <= p * q; < q * q; }
  }

  /** From `x² <= y²` and `0 <= y` follows `-y <= x`. */
  lemma SquareBound(x: real, y: real)
    requires 0.0 <= y && x * x <= y * y
    ensures -y <= x
  {
    if x < -y {
      SquareGrows(y, -x);
      assert false;
    }
  }

  /** Each component of a vector of length at most one lies in `[-1, 1]`. */
  lemma ComponentsOfShortVector(v: Vector3)
    requires LenSquared(v) <= 1.0
    ensures -1.0 <= v.y <= 1.0
  {
    assert v.y * v.y <= 1.0 * 1.0;
    SquareBound(v.y, 1.0);
    SquareBound(-v.y, 1.0);
  }
}
