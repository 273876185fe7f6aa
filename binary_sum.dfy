/** `binary_sum(S, start, stop)`: the sum of the implicit slice
    `S[start:stop]`, by halving the slice. */
module BinarySum {
  import opened Summation
  import LinearSum

  /** `binary_sum`. An empty slice (`start >= stop`) sums to 0 whatever the
      bounds; a non-empty one must lie inside `S`, as Python's indexing
      would otherwise wrap round or raise. The midpoint is `(start + stop) // 2`
      of a non-negative sum, where floor and Euclidean division agree. */
  function BinarySum(S: seq<int>, start: int, stop: int): int
    requires start >= stop || (0 <= start && stop <= |S|)
    decreases stop - start
  {
    if start >= stop then 0
    else if start == stop - 1 then S[start]
    else
      var mid := (start + stop) / 2;
      BinarySum(S, start, mid) + BinarySum(S, mid, stop)
  }

  /** The result is the sum of `S[start..stop]` (0 for an empty slice). */
  lemma {:induction false} BinarySumIsSum(S: seq<int>, start: int, stop: int)
    requires start >= stop || (0 <= start && stop <= |S|)
    ensures BinarySum(S, start, stop) == if start < stop then Sum(S[start..stop]) else 0
    decreases stop - start
  {
    if start >= stop {
    } else if start == stop - 1 {
      assert S[start..stop] == [S[start]];
      assert S[start..stop][1..] == [];
    } else {
      var mid := (start + stop) / 2;
      BinarySumIsSum(S, start, mid);
      BinarySumIsSum(S, mid, stop);
      assert S[start..stop] == S[start..mid] + S[mid..stop];
      SumConcat(S[start..mid], S[mid..stop]);
    }
  }

  /** The two recursive summations agree on every prefix. */
  lemma BinarySumIsLinearSum(S: seq<int>, n: nat)
    requires n <= |S|
    ensures BinarySum(S, 0, n) == LinearSum.LinearSum(S, n)
  {
    BinarySumIsSum(S, 0, n);
    LinearSum.LinearSumIsSum(S, n);
    if n == 0 {
      assert S[..0] == [];
    } else {
      assert S[0..n] == S[..n];
    }
  }
}
