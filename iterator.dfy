/** `SequenceIterator`, which walks a sequence from its last element to its
    first, and `Range`, the index arithmetic of a look-alike of Python's
    `range`. */
module Iterators {
  import opened PythonModel
  import Reverse

  /** An iterator over a sequence that yields its elements last to first. */
  class SequenceIterator<T> {
    /** `_seq`: the sequence iterated over. */
    const sequence: seq<T>
    /** `_k`: the index returned by the previous call to `__next__`; it
        starts at `len(_seq)` and goes down by one on every call, also after
        the end has been reached. */
    var k: int

    /** `_k` never exceeds its start value. */
    ghost predicate Valid()
      reads this
    {
      k <= |sequence|
    }

    /** `__init__`: keep the sequence and start `_k` at its length. */
    constructor (sequence: seq<T>)
      ensures Valid()
      ensures this.sequence == sequence && k == |sequence|
    {
      this.sequence := sequence;
      k := |sequence|;
    }

    /** `__len__`: the length of the sequence, whatever has been consumed. */
    function Length(): (r: nat)
      reads this
      ensures r == |sequence|
    {
      |sequence|
    }

    /** `__next__`: move `_k` one down; the element there while `_k > -1`,
        otherwise `StopIteration`. */
    method Next() returns (r: Result<T>)
      requires Valid()
      modifies this
      ensures Valid() && k == old(k) - 1
      ensures r == if k > -1 then Success(sequence[k]) else Failure(StopIteration)
    {
      k := k - 1;
      if k > -1 {
        r := Success(sequence[k]);
      } else {
        r := Failure(StopIteration);
      }
    }
  }

  /** Call `__next__` `len(s)` times on a new iterator over `s` and then once
      more: the calls give `s` reversed, the `j`-th giving `s[len(s) - j]`,
      and the extra call raises `StopIteration`. */
  method Drain<T>(s: seq<T>) returns (out: seq<T>, after: Result<T>)
    ensures out == Reverse.Reversed(s)
    ensures after == Failure(StopIteration)
  {
    var it := new SequenceIterator(s);
    out := [];
    var calls := 0;
    while calls < it.Length()
      invariant 0 <= calls <= |s|
      invariant it.Valid() && it.sequence == s && it.k == |s| - calls
      invariant out == Reverse.Reversed(s[|s| - calls..])
    {
      var r := it.Next();
      assert s[|s| - calls - 1..][1..] == s[|s| - calls..];
      out := out + [r.value];
      calls := calls + 1;
    }
    assert s[|s| - calls..] == s;
    after := it.Next();
  }

  /** Once an iterator is exhausted, any number of further calls all raise
      `StopIteration`. */
  method ExhaustedStaysExhausted<T>(s: seq<T>, extra: nat) returns (results: seq<Result<T>>)
    ensures |results| == |s| + extra
    ensures forall j :: |s| <= j < |results| ==> results[j] == Failure(StopIteration)
  {
    var it := new SequenceIterator(s);
    results := [];
    while |results| < |s| + extra
      invariant |results| <= |s| + extra
      invariant it.Valid() && it.sequence == s && it.k == |s| - |results|
      invariant forall j :: |s| <= j < |results| ==> results[j] == Failure(StopIteration)
    {
      var r := it.Next();
      results := results + [r];
    }
  }

  /** A `Range` instance: its effective length and the `start` and `step`
      `__getitem__` needs. */
  datatype Range = Range(length: int, start: int, step: int)

  /** `Range.__init__(start, stop=None, step=1)`, as written: `ValueError`
      for step 0; `Range(n)` means start 0 and stop `n`; the length is
      `max(0, (stop - start + step - 1) // stop)`, which divides by `stop`
      and so raises `ZeroDivisionError` when `stop` is 0. */
  function MakeRange(start: int, stop: Option<int>, step: int): (r: Result<Range>)
    ensures step == 0 <==> r == Failure(ValueError)
    ensures r == Failure(ZeroDivisionError) <==>
              step != 0 && (if stop.None? then start == 0 else stop.value == 0)
    ensures r.Failure? ==> r.error == ValueError || r.error == ZeroDivisionError
    ensures r.Success? ==>
              r.value.length >= 0 && r.value.step == step &&
              r.value.start == (if stop.None? then 0 else start)
  {
    if step == 0 then Failure(ValueError)
    else
      var (start', stop') := if stop.None? then (0, start) else (start, stop.value);
      if stop' == 0 then Failure(ZeroDivisionError)
      else Success(Range(Max0(FloorDiv(stop' - start' + step - 1, stop')), start', step))
  }

  /** `max(0, x)`. */
  function Max0(x: int): (m: int)
    ensures m >= 0 && m >= x && (m == 0 || m == x)
  {
    if x < 0 then 0 else x
  }

  /** `Range.__len__`. */
  function Length(r: Range): (n: int)
    ensures n == r.length
  {
    r.length
  }

  /** `Range.__getitem__`: a negative `k` counts from the end; `IndexError`
      unless the index then lies in `[0, length)`, otherwise
      `start + k * step`. */
  function GetItem(r: Range, k: int): (v: Result<int>)
    ensures v.Success? <==> -r.length <= k < r.length || 0 <= k < r.length
    ensures v.Failure? ==> v.error == IndexError
  {
    var k' := if k < 0 then k + r.length else k;
    if !(0 <= k' < r.length) then Failure(IndexError)
    else Success(r.start + k' * r.step)
  }

  /** Index `-j` is index `length - j` for `1 <= j <= length`, and index `k`
      in range holds the `k`-th term of the progression from `start` by
      `step`. */
  lemma GetItemTerms(r: Range, k: int)
    requires 0 <= k < r.length
    ensures GetItem(r, k) == Success(r.start + k * r.step)
    ensures GetItem(r, k - r.length) == GetItem(r, k)
  {
  }

  /** `x` comes before `stop` when walking from the start in the direction
      of `step`. */
  predicate Before(x: int, stop: int, step: int)
  {
    if step > 0 then x < stop else x > stop
  }

  /** The length the built-in `range` has: how many terms
      `start, start + step, …` come before `stop`. */
  function IntendedLength(start: int, stop: int, step: int): (n: int)
    requires step != 0
    ensures n >= 0
  {
    if step > 0 then Max0(FloorDiv(stop - start + step - 1, step))
    else Max0(FloorDiv(stop - start + step + 1, step))
  }

  /** `m * b <= n * b` for `m <= n` and a positive `b`. */
  lemma MulMonotone(m: int, n: int, b: int)
    requires m <= n && b > 0
    ensures m * b <= n * b
  {
    assert n * b - m * b == (n - m) * b;
  }

  /** Counting the multiples `k * b` (`k >= 0`, `b > 0`) below `d`: they
      are those with `k < q`, for `q` the floor of `(d + b - 1) / b`. */
  lemma CountUp(d: int, b: int, q: int, k: int)
    requires b > 0 && k >= 0 && q * b <= d + b - 1 < q * b + b
    ensures k < q <==> k * b < d
  {
    if k < q {
      MulMonotone(k, q - 1, b);
      assert (q - 1) * b == q * b - b;
    } else {
      MulMonotone(q, k, b);
    }
  }

  /** The term `k >= 0` of the progression is before `stop` exactly when
      `k` is below the intended length. */
  lemma IntendedLengthCounts(start: int, stop: int, step: int, k: int)
    requires step != 0 && k >= 0
    ensures k < IntendedLength(start, stop, step) <==> Before(start + k * step, stop, step)
  {
    if step > 0 {
      CountUp(stop - start, step, FloorDiv(stop - start + step - 1, step), k);
    } else {
      // Walking down by step is walking up by -step from -start to -stop.
      var q := FloorDiv(stop - start + step + 1, step);
      assert q * -step == -(q * step);
      assert k * -step == -(k * step);
      CountUp(start - stop, -step, q, k);
    }
  }

  /** `Range.__init__` with the length computed by `step`, as the built-in
      `range` does it; `stop` is then never a divisor. */
  function MakeRangeFixed(start: int, stop: Option<int>, step: int): (r: Result<Range>)
    ensures step == 0 <==> r == Failure(ValueError)
    ensures r.Success? ==>
              r.value.step == step &&
              r.value.start == (if stop.None? then 0 else start) &&
              r.value.length == IntendedLength(r.value.start, if stop.None? then start else stop.value, step)
  {
    if step == 0 then Failure(ValueError)
    else
      var (start', stop') := if stop.None? then (0, start) else (start, stop.value);
      Success(Range(IntendedLength(start', stop', step), start', step))
  }

  /** The corrected `Range` enumerates exactly the terms before `stop`:
      index `k >= 0` succeeds iff `start + k * step` comes before `stop`,
      and then gives that term. */
  lemma MakeRangeFixedEnumerates(start: int, stop: int, step: int, k: int)
    requires step != 0 && k >= 0
    ensures MakeRangeFixed(start, Some(stop), step).Success?
    ensures GetItem(MakeRangeFixed(start, Some(stop), step).value, k).Success?
            <==> Before(start + k * step, stop, step)
    ensures Before(start + k * step, stop, step) ==>
              GetItem(MakeRangeFixed(start, Some(stop), step).value, k) == Success(start + k * step)
  {
    IntendedLengthCounts(start, stop, step, k);
  }

  /** `Range(2, 10)` as written has length 0, though 2, 3, …, 9 come before
      10: the division by `stop` (10) instead of `step` (1). The corrected
      `Range` has length 8. */
  lemma RangeLengthDividesByStop()
    ensures MakeRange(2, Some(10), 1) == Success(Range(0, 2, 1))
    ensures MakeRangeFixed(2, Some(10), 1) == Success(Range(8, 2, 1))
  {
  }

  /** `Range(5)` as written has length 1 (5 // 5), and `Range(0)` raises
      `ZeroDivisionError`. */
  lemma RangeOfNAsWritten()
    ensures MakeRange(5, None, 1) == Success(Range(1, 0, 1))
    ensures MakeRange(0, None, 1) == Failure(ZeroDivisionError)
    ensures MakeRangeFixed(5, None, 1) == Success(Range(5, 0, 1))
    ensures MakeRangeFixed(0, None, 1) == Success(Range(0, 0, 1))
  {
  }
}
