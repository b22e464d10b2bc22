/** Number conversions that the trail's JavaScript arithmetic relies on. */
module Numbers {

  /** An unsigned byte, as the channels of a node colour are. */
  type Byte = x: int | 0 <= x < 0x100

  function Max(a: int, b: int): int {
    if a >= b then a else b
  }

  function MaxReal(a: real, b: real): real {
    if a >= b then a else b
  }

  /** The integer conversion behind `~~x` and `x << n`: truncation toward zero.
      The 32-bit wrap-around that follows it in JavaScript is applied by the
      callers that need it. */
  function Trunc(x: real): (n: int)
    ensures 0.0 <= x ==> n as real <= x < n as real + 1.0
    ensures x < 0.0 ==> n as real - 1.0 < x <= n as real
  {
    if x >= 0.0 then x.Floor else -((-x).Floor)
  }

  /** Truncating a value that is at least the integer `n` gives at least `n`. */
  lemma TruncAtLeast(x: real, n: int)
    requires n as real <= x
    ensures n <= Trunc(x)
  {
  }

  /** The product of two reals, as a function: a fact proved about `Mul(a, b)`
      in one lemma is recognised by its callers as it stands. */
  function Mul(a: real, b: real): real {
    a * b
  }

  /** A fraction in [0, 1] of an extent lies between 0 and the extent. */
  lemma Fraction(a: real, extent: real)
    requires 0.0 <= a <= 1.0
    ensures extent >= 0.0 ==> 0.0 <= Mul(a, extent) <= extent
    ensures extent <= 0.0 ==> extent <= Mul(a, extent) <= 0.0
  {
    assert Mul(a, extent) == a * extent;
    if extent >= 0.0 {
      assert 0.0 <= a * extent;
      assert (1.0 - a) * extent >= 0.0;
    } else {
      assert a * extent <= 0.0;
      assert (1.0 - a) * extent <= 0.0;
    }
  }

  /** Going a fraction `f` of the way from `h` to `t` stays between them. */
  lemma Interpolate(h: real, t: real, f: real)
    requires 0.0 <= f <= 1.0
    ensures h >= t ==> t <= h - Mul(f, h - t) <= h
    ensures h <= t ==> h <= h - Mul(f, h - t) <= t
  {
    Fraction(f, h - t);
  }

  /** Multiplying by a positive size and dividing back is the identity. */
  lemma Cancel(n: real, size: real)
    requires size > 0.0
    ensures n * size / size == n
  {
  }

  /** Dividing by a positive size and multiplying back is the identity. */
  lemma Unscaled(n: real, size: real)
    requires size > 0.0
    ensures n / size * size == n
  {
  }
}
