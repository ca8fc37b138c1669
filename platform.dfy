/** What the renderer takes from Rust's primitive types and from the platform's
    floating-point library.  `f64` is modelled as `real`; `f64::sqrt` is not
    something Dafny can compute, so every operation that needs it receives it as
    a parameter, and the lemmas that depend on its meaning assume `IsSqrt`. */
module Platform {

  datatype Option<T> = None | Some(value: T)

  /** Rust's `u8` and `u32`. */
  newtype u8 = x: int | 0 <= x < 0x100
  newtype u32 = x: int | 0 <= x < 0x1_0000_0000

  /** The platform's `f64::sqrt`. */
  type SqrtFn = real -> real

  /** `sqrt` returns the non-negative square root of every non-negative number. */
  ghost predicate IsSqrt(sqrt: SqrtFn) {
    forall x: real :: 0.0 <= x ==> 0.0 <= sqrt(x) && sqrt(x) * sqrt(x) == x
  }

  /** A square root is unique: any non-negative `s` with `s * s == x` is `sqrt(x)`. */
  lemma SqrtOfSquare(sqrt: SqrtFn, x: real, s: real)
    requires IsSqrt(sqrt)
    requires 0.0 <= s && s * s == x
    ensures sqrt(x) == s
  {
    var r := sqrt(x);
    assert 0.0 <= r && r * r == x;
    assert (r - s) * (r + s) == 0.0;
    if r + s == 0.0 {
      assert r == 0.0 && s == 0.0;
    } else {
      assert r - s == 0.0 / (r + s);
    }
  }

  /** `sqrt` is positive exactly on the positive numbers. */
  lemma SqrtPositive(sqrt: SqrtFn, x: real)
    requires IsSqrt(sqrt) && 0.0 <= x
    ensures 0.0 < sqrt(x) <==> 0.0 < x
  {
    var r := sqrt(x);
    assert 0.0 <= r && r * r == x;
    if 0.0 < r {
      calc { x; == r * r; > 0.0; }
    } else {
      calc { x; == r * r; == 0.0 * 0.0; == 0.0; }
    }
  }

  /** `sqrt` is monotonic on the non-negative numbers. */
  lemma SqrtMonotonic(sqrt: SqrtFn, x: real, y: real)
    requires IsSqrt(sqrt)
    requires 0.0 <= x <= y
    ensures sqrt(x) <= sqrt(y)
  {
    var a, b := sqrt(x), sqrt(y);
    assert 0.0 <= a && a * a == x;
    assert 0.0 <= b && b * b == y;
    assert (b - a) * (b + a) == y - x;
    if b + a == 0.0 {
      assert a == 0.0 && b == 0.0;
    } else {
      assert b - a == (y - x) / (b + a);
    }
  }

  /** Rust's `x as u8` for an `f64` `x` that is not NaN: the value is rounded
      toward zero and saturated into 0..=255. */
  function CastU8(x: real): (b: u8)
    ensures 0.0 <= x < 256.0 ==> b as real <= x < b as real + 1.0
    ensures x < 0.0 ==> b == 0
    ensures 255.0 <= x ==> b == 255
  {
    if x <= 0.0 then 0
    else if 255.0 <= x then 255
    else x.Floor as u8
  }

  /** The cast never makes a larger number smaller. */
  lemma CastU8Monotonic(x: real, y: real)
    requires x <= y
    ensures CastU8(x) <= CastU8(y)
  {
    if 0.0 < x && y < 255.0 {
      assert x.Floor <= y.Floor;
    }
  }

  /** Rust's `n as u32` for a `usize` `n`: the low 32 bits are kept. */
  function CastU32(n: nat): (r: u32)
    ensures n < 0x1_0000_0000 ==> r as int == n
    ensures r as int <= n
    ensures (n - r as int) % 0x1_0000_0000 == 0
  {
    (n % 0x1_0000_0000) as u32
  }
}
