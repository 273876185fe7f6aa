/** The `Progression` family: iterators whose `__next__` returns the current
    value and then calls `_advance` to compute the next one. The generic
    progression counts up by one; the subclasses multiply by a base or add
    the previous two values. Each class keeps a ghost count of the values
    produced so far, and its invariant ties the fields to the term of that
    index. */
module Progressions {
  import opened PythonModel
  import Power
  import GoodFib

  /** `Progression(start)`: `start, start + 1, start + 2, …`; a `None`
      current value marks the end, so `Progression(None)` is empty. */
  class Progression {
    const start: Option<int>
    /** `_current`. */
    var current: Option<int>
    /** How many values `__next__` has returned. */
    ghost var produced: nat

    ghost predicate Valid()
      reads this
    {
      current == if start.None? then None else Some(start.value + produced)
    }

    /** `__init__`: the current value is the start. */
    constructor (start: Option<int>)
      ensures Valid() && this.start == start && produced == 0
    {
      this.start := start;
      current := start;
      produced := 0;
    }

    /** `_advance`: add one to the current value. */
    method Advance()
      requires current.Some?
      modifies this
      ensures current == Some(old(current).value + 1) && produced == old(produced)
    {
      current := Some(current.value + 1);
    }

    /** `__next__`: `StopIteration` while the current value is `None`,
        otherwise the current value, advancing past it. */
    method Next() returns (r: Result<int>)
      requires Valid()
      modifies this
      ensures Valid()
      ensures r == if start.None? then Failure(StopIteration) else Success(start.value + old(produced))
      ensures produced == if r.Success? then old(produced) + 1 else old(produced)
    {
      if current.None? {
        return Failure(StopIteration);
      }
      var answer := current.value;
      Advance();
      produced := produced + 1;
      r := Success(answer);
    }
  }

  /** `GeometricProgression(base, start)`: `start, start * base,
      start * base^2, …`. */
  class GeometricProgression {
    const start: int
    const base: int
    var current: int
    ghost var produced: nat

    ghost predicate Valid()
      reads this
    {
      current == start * Power.Power(base, produced)
    }

    /** `__init__`, with the defaults `base = 2` and `start = 1` written out
        by the caller. */
    constructor (base: int, start: int)
      ensures Valid() && this.base == base && this.start == start && produced == 0
    {
      this.base := base;
      this.start := start;
      current := start;
      produced := 0;
    }

    /** `_advance`: multiply the current value by the base. */
    method Advance()
      modifies this
      ensures current == old(current) * base && produced == old(produced)
    {
      current := current * base;
    }

    /** `__next__`: the current value is never `None` here, so the call
        always returns, the term `start * base^k` for the `k`-th call. */
    method Next() returns (r: Result<int>)
      requires Valid()
      modifies this
      ensures Valid() && produced == old(produced) + 1
      ensures r == Success(start * Power.Power(base, old(produced)))
    {
      var answer := current;
      Advance();
      produced := produced + 1;
      assert current == start * Power.Power(base, produced) by {
        NextPower(start, base, produced - 1);
      }
      r := Success(answer);
    }
  }

  /** One more factor of the base: `s * b^k * b == s * b^(k+1)`. */
  lemma NextPower(s: int, b: int, k: nat)
    ensures s * Power.Power(b, k) * b == s * Power.Power(b, k + 1)
  {
    calc {
      s * Power.Power(b, k) * b;
      s * (Power.Power(b, k) * b);
      s * (b * Power.Power(b, k));
      s * Power.Power(b, k + 1);
    }
  }

  /** The state `FibonacciProgression(first, second)` keeps after `k`
      advances: the pair (`_prev`, `_current`), starting from the
      fictitious `second - first` before `first`. */
  function FibPair(first: int, second: int, k: nat): (int, int)
    decreases k
  {
    if k == 0 then (second - first, first)
    else
      var p := FibPair(first, second, k - 1);
      (p.1, p.1 + p.0)
  }

  /** The reference sequence: `first`, `second`, then each term the sum of
      the previous two. */
  function FibTerm(first: int, second: int, k: nat): int
    decreases k
  {
    if k == 0 then first
    else if k == 1 then second
    else FibTerm(first, second, k - 1) + FibTerm(first, second, k - 2)
  }

  /** After `k` advances, `_current` is term `k` and `_prev` is term
      `k - 1` (the fictitious `second - first` for `k == 0`). */
  lemma {:induction false} FibPairTerms(first: int, second: int, k: nat)
    ensures FibPair(first, second, k).1 == FibTerm(first, second, k)
    ensures FibPair(first, second, k).0 ==
              if k == 0 then second - first else FibTerm(first, second, k - 1)
    decreases k
  {
    if k > 0 {
      FibPairTerms(first, second, k - 1);
    }
  }

  /** From the start values 0 and 1 the reference sequence is the Fibonacci
      numbers. */
  lemma {:induction false} FibTermIsFib(k: nat)
    ensures FibTerm(0, 1, k) == GoodFib.Fib(k)
    decreases k
  {
    if k >= 2 {
      FibTermIsFib(k - 1);
      FibTermIsFib(k - 2);
    }
  }

  /** `FibonacciProgression(first, second)`: `first, second, first + second,
      …`. */
  class FibonacciProgression {
    const first: int
    const second: int
    var current: int
    /** `_prev`: the value before the current one. */
    var prev: int
    ghost var produced: nat

    ghost predicate Valid()
      reads this
    {
      (prev, current) == FibPair(first, second, produced)
    }

    /** `__init__`, with the defaults `first = 0` and `second = 1` written
        out by the caller. */
    constructor (first: int, second: int)
      ensures Valid() && this.first == first && this.second == second && produced == 0
    {
      this.first := first;
      this.second := second;
      current := first;
      prev := second - first;
      produced := 0;
    }

    /** `_advance`: the previous value becomes the current one, and the
        current one the sum of the two. */
    method Advance()
      modifies this
      ensures prev == old(current) && current == old(current) + old(prev)
      ensures produced == old(produced)
    {
      prev, current := current, current + prev;
    }

    /** `__next__`: always returns, the `k`-th call giving term `k` of the
        reference sequence. */
    method Next() returns (r: Result<int>)
      requires Valid()
      modifies this
      ensures Valid() && produced == old(produced) + 1
      ensures r == Success(FibTerm(first, second, old(produced)))
    {
      FibPairTerms(first, second, produced);
      var answer := current;
      Advance();
      produced := produced + 1;
      r := Success(answer);
    }
  }

  /** `MyFibonacciProgression(current, next)`: the same recurrence kept as
      the pair (`_current`, `_next`). */
  class MyFibonacciProgression {
    const first: int
    const second: int
    var current: int
    /** `_next`: the value after the current one. */
    var next: int
    ghost var produced: nat

    ghost predicate Valid()
      reads this
    {
      current == FibTerm(first, second, produced) &&
      next == FibTerm(first, second, produced + 1)
    }

    constructor (current: int, next: int)
      ensures Valid() && first == current && second == next && produced == 0
    {
      first, second := current, next;
      this.current, this.next := current, next;
      produced := 0;
    }

    /** `_advance`: the next value becomes current, and next becomes the sum
        of the two. */
    method Advance()
      modifies this
      ensures next == old(next) + old(current) && current == old(next)
      ensures produced == old(produced)
    {
      next, current := next + current, next;
    }

    /** `__next__`: always returns, the `k`-th call giving term `k`. */
    method Next() returns (r: Result<int>)
      requires Valid()
      modifies this
      ensures Valid() && produced == old(produced) + 1
      ensures r == Success(FibTerm(first, second, old(produced)))
    {
      var answer := current;
      Advance();
      produced := produced + 1;
      r := Success(answer);
    }
  }

  /** The first `n` values of `Progression(start)`: `start + j` at `j`. An
      empty progression gives `StopIteration` on every call. */
  method CountingTerms(start: Option<int>, n: nat) returns (terms: seq<Result<int>>)
    ensures |terms| == n
    ensures forall j :: 0 <= j < n ==>
              terms[j] == if start.None? then Failure(StopIteration) else Success(start.value + j)
  {
    var p := new Progression(start);
    terms := [];
    while |terms| < n
      invariant |terms| <= n && p.Valid() && p.start == start
      invariant start.Some? ==> p.produced == |terms|
      invariant forall j :: 0 <= j < |terms| ==>
                  terms[j] == if start.None? then Failure(StopIteration) else Success(start.value + j)
    {
      var r := p.Next();
      terms := terms + [r];
    }
  }

  /** The first `n` values of `GeometricProgression(base, start)`:
      `start * base^j` at `j`. */
  method GeometricTerms(base: int, start: int, n: nat) returns (terms: seq<int>)
    ensures |terms| == n
    ensures forall j :: 0 <= j < n ==> terms[j] == start * Power.Power(base, j)
  {
    var p := new GeometricProgression(base, start);
    terms := [];
    while |terms| < n
      invariant |terms| <= n && p.Valid() && p.base == base && p.start == start
      invariant p.produced == |terms|
      invariant forall j :: 0 <= j < |terms| ==> terms[j] == start * Power.Power(base, j)
    {
      var r := p.Next();
      terms := terms + [r.value];
    }
  }

  /** The first `n` values of `FibonacciProgression(first, second)` are the
      reference terms. */
  method FibonacciTerms(first: int, second: int, n: nat) returns (terms: seq<int>)
    ensures |terms| == n
    ensures forall j {:trigger terms[j]} :: 0 <= j < n ==> terms[j] == FibTerm(first, second, j)
  {
    var p := new FibonacciProgression(first, second);
    terms := [];
    while |terms| < n
      invariant |terms| <= n
      invariant p.Valid() && p.first == first && p.second == second && p.produced == |terms|
      invariant forall j {:trigger terms[j]} :: 0 <= j < |terms| ==> terms[j] == FibTerm(first, second, j)
    {
      var r := p.Next();
      assert r.value == FibTerm(first, second, |terms|);
      terms := terms + [r.value];
    }
  }

  /** The first `n` values of `MyFibonacciProgression(first, second)` are
      the same reference terms. */
  method MyFibonacciTerms(first: int, second: int, n: nat) returns (terms: seq<int>)
    ensures |terms| == n
    ensures forall j {:trigger terms[j]} :: 0 <= j < n ==> terms[j] == FibTerm(first, second, j)
  {
    var q := new MyFibonacciProgression(first, second);
    terms := [];
    while |terms| < n
      invariant |terms| <= n
      invariant q.Valid() && q.first == first && q.second == second && q.produced == |terms|
      invariant forall j {:trigger terms[j]} :: 0 <= j < |terms| ==> terms[j] == FibTerm(first, second, j)
    {
      var r := q.Next();
      assert r.value == FibTerm(first, second, |terms|);
      terms := terms + [r.value];
    }
  }

  /** The two Fibonacci classes, started from the same two values, give the
      same values term for term. */
  method SameFibonacciTerms(first: int, second: int, n: nat) returns (a: seq<int>, b: seq<int>)
    ensures |a| == n && a == b
  {
    a := FibonacciTerms(first, second, n);
    b := MyFibonacciTerms(first, second, n);
  }
}
