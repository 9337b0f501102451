/**
 * Fixed-width signed integers. C# `int` and `long` arithmetic runs unchecked:
 * a product that leaves the range wraps around modulo 2^32 (2^64).
 * Dafny integers are unbounded, so the wrap is written out here.
 */
module MachineInt {
  const HALF32: int := 0x8000_0000
  const HALF64: int := 0x8000_0000_0000_0000

  /** Values of a two's complement integer whose range is [-half, half). */
  predicate InRange(x: int, half: int)
  {
    -half <= x < half
  }

  predicate IsInt32(x: int) { InRange(x, HALF32) }

  predicate IsInt64(x: int) { InRange(x, HALF64) }

  /** The two's complement value congruent to x modulo 2 * half. */
  function Wrap(x: int, half: int): (r: int)
    requires half > 0
    ensures InRange(r, half)
    ensures (r - x) % (2 * half) == 0
  {
    var m := 2 * half;
    ModSelf(x + half, m);
    (x + half) % m - half
  }

  function Wrap32(x: int): (r: int)
    ensures IsInt32(r)
  {
    Wrap(x, HALF32)
  }

  function Wrap64(x: int): (r: int)
    ensures IsInt64(r)
  {
    Wrap(x, HALF64)
  }

  lemma ModSelf(x: int, m: int)
    requires m > 0
    ensures (x % m - x) % m == 0
  {
    assert x % m - x == m * (-(x / m));
    MulMod(-(x / m), m);
  }

  lemma MulMod(k: int, m: int)
    requires m > 0
    ensures (m * k) % m == 0
  {
    var q, r := (m * k) / m, (m * k) % m;
    assert m * k == m * q + r;
    assert m * (k - q) == r;
    SmallMultipleIsZero(k - q, m);
  }

  /** The only multiple of m strictly between -m and m is 0. */
  lemma SmallMultipleIsZero(j: int, m: int)
    requires m > 0 && -m < m * j < m
    ensures j == 0
  {
  }

  /** Numbers congruent modulo m have the same remainder. */
  lemma CongruentMod(x: int, y: int, m: int)
    requires m > 0 && (x - y) % m == 0
    ensures x % m == y % m
  {
    var j := (x - y) / m;
    assert x - y == m * j;
    var qx, qy := x / m, y / m;
    assert x % m - y % m == m * (j - qx + qy);
    SmallMultipleIsZero(j - qx + qy, m);
  }

  /** Wrapping depends only on the residue: congruent inputs wrap alike. */
  lemma WrapCongruent(x: int, y: int, half: int)
    requires half > 0 && (x - y) % (2 * half) == 0
    ensures Wrap(x, half) == Wrap(y, half)
  {
    CongruentMod(x + half, y + half, 2 * half);
  }

  /** A value already in range is left as it is. */
  lemma {:induction false} WrapId(x: int, half: int)
    requires half > 0 && InRange(x, half)
    ensures Wrap(x, half) == x
  {
    var r := Wrap(x, half);
    assert -2 * half < r - x < 2 * half;
    var j := (r - x) / (2 * half);
    assert r - x == 2 * half * j;
    SmallMultipleIsZero(j, 2 * half);
  }

  /**
   * Wrapping after every multiplication is the same as wrapping once at the
   * end: the machine product of a wrapped value equals the wrapped exact product.
   */
  lemma {:induction false} WrapMul(a: int, b: int, half: int)
    requires half > 0
    ensures Wrap(Wrap(a, half) * b, half) == Wrap(a * b, half)
  {
    var m := 2 * half;
    var w := Wrap(a, half);
    var k := (w - a) / m;
    assert w - a == m * k;
    assert w * b - a * b == m * (k * b);
    MulMod(k * b, m);
    WrapCongruent(w * b, a * b, half);
  }
}
