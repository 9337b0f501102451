/**
 * CalculateFactorial: a `while` loop that multiplies a C# `int` accumulator
 * by num - 1, num - 2, ..., 2. The accumulator's width is a parameter of the
 * loop so that the 32-bit original and a 64-bit correction share one body.
 */
module Factorial {
  import opened MachineInt

  /** The mathematical factorial. */
  function Fact(n: nat): nat
  {
    if n == 0 then 1 else n * Fact(n - 1)
  }

  /** lo * (lo + 1) * ... * hi, and 1 when the range is empty. */
  function Prod(lo: int, hi: int): int
    decreases hi - lo
  {
    if lo > hi then 1 else lo * Prod(lo + 1, hi)
  }

  /** The factors above k make up n! together with k!. */
  lemma {:induction false} ProdFact(k: nat, n: nat)
    requires k <= n
    ensures Prod(k + 1, n) * Fact(k) == Fact(n)
    decreases n - k
  {
    if k < n {
      ProdFact(k + 1, n);
      var p, f := Prod(k + 2, n), Fact(k);
      assert Prod(k + 1, n) == (k + 1) * p;
      assert Fact(k + 1) == (k + 1) * f;
      Rotate(k + 1, p, f);
    }
  }

  lemma Rotate(a: int, b: int, c: int)
    ensures (a * b) * c == b * (a * c)
  {
  }

  lemma {:induction false} FactMonotone(a: nat, b: nat)
    requires a <= b
    ensures Fact(a) <= Fact(b)
    decreases b - a
  {
    if a < b {
      FactMonotone(a, b - 1);
      var f: nat, c: nat := Fact(b - 1), b - 1;
      assert Fact(b) == f + c * f;
    }
  }

  lemma Fact12()
    ensures Fact(12) == 479001600
  {
    assert Fact(4) == 24;
    assert Fact(8) == 40320;
  }

  lemma Fact20()
    ensures Fact(20) == 2432902008176640000
  {
    Fact12();
    assert Fact(16) == 20922789888000;
  }

  /** One iteration keeps `factorial == Wrap(Prod(n, num))` with n one lower. */
  lemma StepInvariant(n: int, num: int, half: int)
    requires half > 0 && 2 < n <= num
    ensures Wrap(Wrap(Prod(n, num), half) * (n - 1), half) == Wrap(Prod(n - 1, num), half)
  {
    var p := Prod(n, num);
    assert Prod(n - 1, num) == (n - 1) * p;
    WrapMul(p, n - 1, half);
  }

  /**
   * The loop of CalculateFactorial with an accumulator of the two's complement
   * range [-half, half): every multiplication by num - 1 wraps.
   */
  method MachineFactorial(num: int, half: int) returns (r: int)
    requires IsInt32(num) && half >= HALF32
    ensures num <= 0 ==> r == num
    ensures num >= 1 ==> r == Wrap(Fact(num), half)
  {
    WrapId(num, half);
    var n := num;
    var factorial := num;
    if n == 2 || n == 1 {
      WrapId(Fact(num), half);
      return factorial;
    }
    while n > 2
      invariant num > 2 ==> 2 <= n <= num && factorial == Wrap(Prod(n, num), half)
      invariant num <= 2 ==> n == num && factorial == num
    {
      StepInvariant(n, num, half);
      factorial := Wrap(factorial * (n - 1), half);
      n := n - 1;
    }
    if num > 2 {
      ProdFact(1, num);
    }
    r := factorial;
  }

  /**
   * CalculateFactorial as written, on a 32-bit `int`: exact for 1..12,
   * wrapped modulo 2^32 beyond, and the argument itself for num <= 0.
   */
  method CalculateFactorial(num: int) returns (r: int)
    requires IsInt32(num)
    ensures IsInt32(r)
    ensures num <= 0 ==> r == num
    ensures num >= 1 ==> r == Wrap32(Fact(num))
    ensures 1 <= num <= 12 ==> r == Fact(num)
  {
    r := MachineFactorial(num, HALF32);
    if 1 <= num <= 12 {
      Fact12();
      FactMonotone(num, 12);
      WrapId(Fact(num), HALF32);
    }
  }

  /** 13! does not fit in 32 bits: the 32-bit loop answers 1932053504. */
  lemma Factorial13Wraps()
    ensures Fact(13) == 6227020800
    ensures Wrap32(Fact(13)) == 1932053504 != Fact(13)
  {
    Fact12();
  }

  /**
   * The same loop on a 64-bit `long`: exact for every argument the factorial
   * endpoint admits (1..19), and up to 20.
   */
  method CalculateFactorialLong(num: int) returns (r: int)
    requires IsInt32(num)
    ensures IsInt64(r)
    ensures num <= 0 ==> r == num
    ensures 1 <= num <= 20 ==> r == Fact(num)
  {
    r := MachineFactorial(num, HALF64);
    if 1 <= num <= 20 {
      Fact20();
      FactMonotone(num, 20);
      WrapId(Fact(num), HALF64);
    } else if num <= 0 {
      WrapId(num, HALF64);
    }
  }
}
