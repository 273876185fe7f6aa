/** `linear_sum(S, n)`: the sum of the first `n` numbers of `S`, by
    recursion on `n`. */
module LinearSum {
  import opened Summation

  /** `linear_sum`: `n` falls by one per call, so the recursion ends.
      Python would index out of range for `n > len(S)` and never stop for a
      negative `n`; both are excluded. */
  function LinearSum(S: seq<int>, n: nat): int
    requires n <= |S|
    decreases n
  {
    if n == 0 then 0 else LinearSum(S, n - 1) + S[n - 1]
  }

  /** The result is the sum of the prefix `S[..n]`. */
  lemma {:induction false} LinearSumIsSum(S: seq<int>, n: nat)
    requires n <= |S|
    ensures LinearSum(S, n) == Sum(S[..n])
  {
    if n == 0 {
      assert S[..0] == [];
    } else {
      LinearSumIsSum(S, n - 1);
      assert S[..n] == S[..n - 1] + [S[n - 1]];
      SumSnoc(S[..n - 1], S[n - 1]);
    }
  }

  /** The whole list: `linear_sum(S, len(S))` is the sum of `S`. */
  lemma LinearSumWhole(S: seq<int>)
    ensures LinearSum(S, |S|) == Sum(S)
  {
    LinearSumIsSum(S, |S|);
    assert S[..|S|] == S;
  }
}
