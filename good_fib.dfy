/** `good_fibonacci(n)`: the pair of the n-th and the (n-1)-th Fibonacci
    numbers, by linear recursion. */
module GoodFib {

  /** The Fibonacci numbers, `F(0) = 0`, `F(1) = 1`. */
  function Fib(n: nat): nat
    decreases n
  {
    if n <= 1 then n else Fib(n - 1) + Fib(n - 2)
  }

  /** `good_fibonacci`. For `n <= 1` (negative `n` included, as in the
      source) the pair is `(n, 0)`; otherwise, from the pair `(a, b)` of
      `n - 1` it builds `(a + b, a)`. */
  function GoodFibonacci(n: int): (int, int)
    decreases if n <= 1 then 0 else n
  {
    if n <= 1 then (n, 0)
    else
      var (a, b) := GoodFibonacci(n - 1);
      (a + b, a)
  }

  /** For `n >= 0` the first component is `F(n)`; for `n >= 1` the second is
      `F(n - 1)`, and for `n == 0` it is 0. */
  lemma {:induction false} GoodFibonacciIsFib(n: nat)
    ensures GoodFibonacci(n).0 == Fib(n)
    ensures GoodFibonacci(n).1 == if n == 0 then 0 else Fib(n - 1)
    decreases n
  {
    if n > 1 {
      GoodFibonacciIsFib(n - 1);
    }
  }

  /** The first components follow the Fibonacci recurrence: for `n >= 2`
      the first component of `n` is the sum of those of `n - 1` and `n - 2`. */
  lemma GoodFibonacciRecurrence(n: int)
    requires n >= 2
    ensures GoodFibonacci(n).0 == GoodFibonacci(n - 1).0 + GoodFibonacci(n - 2).0
  {
    GoodFibonacciIsFib(n);
    GoodFibonacciIsFib(n - 1);
    GoodFibonacciIsFib(n - 2);
  }
}
