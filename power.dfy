/** `power(x, n)` and `fast_power(x, n)`: two recursive computations of
    `x ** n` for a non-negative integer `n`. */
module Power {

  /** `power`: `x ** n` by `n` multiplications; this is also the reference
      definition of the power. */
  function Power(x: int, n: nat): int
    decreases n
  {
    if n == 0 then 1 else x * Power(x, n - 1)
  }

  /** `fast_power`: square the power of `n // 2`, times `x` when `n` is odd.
      For `n >= 1`, `n / 2 < n`, so the recursion ends. */
  function FastPower(x: int, n: nat): int
    decreases n
  {
    if n == 0 then 1
    else
      var partial := FastPower(x, n / 2);
      var result := partial * partial;
      if n % 2 == 1 then result * x else result
  }

  /** Exponents add: `x^(a+b) == x^a * x^b`. */
  lemma {:induction false} PowerAdd(x: int, a: nat, b: nat)
    ensures Power(x, a + b) == Power(x, a) * Power(x, b)
    decreases a
  {
    if a != 0 {
      PowerAdd(x, a - 1, b);
      calc {
        Power(x, a + b);
        x * Power(x, a - 1 + b);
        x * (Power(x, a - 1) * Power(x, b));
        (x * Power(x, a - 1)) * Power(x, b);
      }
    }
  }

  /** Both functions compute the same power: `fast_power(x, n) == x ** n`. */
  lemma {:induction false} FastPowerIsPower(x: int, n: nat)
    ensures FastPower(x, n) == Power(x, n)
    decreases n
  {
    if n != 0 {
      var h := n / 2;
      FastPowerIsPower(x, h);
      PowerAdd(x, h, h);
      if n % 2 == 1 {
        PowerAdd(x, h + h, 1);
        assert Power(x, 1) == x;
        assert n == h + h + 1;
      } else {
        assert n == h + h;
      }
    }
  }
}
