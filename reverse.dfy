/** `reverse(S, start, stop)`: reverse the implicit slice `S[start:stop]` of
    a list in place, one swap per recursive call. */
module Reverse {

  /** The reversal of a sequence: the reference the in-place method is held
      to. */
  function Reversed<T>(s: seq<T>): seq<T>
  {
    if s == [] then [] else Reversed(s[1..]) + [s[0]]
  }

  /** The reversal has the same length and holds `s[|s| - 1 - k]` at `k`. */
  lemma {:induction false} ReversedAt<T>(s: seq<T>, k: int)
    requires 0 <= k < |s|
    ensures |Reversed(s)| == |s| && Reversed(s)[k] == s[|s| - 1 - k]
  {
    ReversedLength(s);
    if k < |s| - 1 {
      ReversedAt(s[1..], k);
    }
  }

  /** Reversal keeps the length. */
  lemma {:induction false} ReversedLength<T>(s: seq<T>)
    ensures |Reversed(s)| == |s|
  {
    if s != [] {
      ReversedLength(s[1..]);
    }
  }

  /** Reversal keeps the elements with their multiplicities. */
  lemma {:induction false} ReversedPermutes<T>(s: seq<T>)
    ensures multiset(Reversed(s)) == multiset(s)
  {
    if s != [] {
      ReversedPermutes(s[1..]);
      assert s == [s[0]] + s[1..];
    }
  }

  /** Reversing twice gives the sequence back. */
  lemma ReversedTwice<T>(s: seq<T>)
    ensures Reversed(Reversed(s)) == s
  {
    ReversedLength(s);
    ReversedLength(Reversed(s));
    forall k | 0 <= k < |s|
      ensures Reversed(Reversed(s))[k] == s[k]
    {
      ReversedAt(Reversed(s), k);
      ReversedAt(s, |s| - 1 - k);
    }
  }

  /** `S` with its slice `[start, stop)` reversed and everything else kept. */
  function ReverseSlice<T>(s: seq<T>, start: int, stop: int): seq<T>
    requires 0 <= start <= stop <= |s|
  {
    s[..start] + Reversed(s[start..stop]) + s[stop..]
  }

  /** `reverse`. When the slice has at least two elements it swaps its ends
      and recurs on the inside; a slice of zero or one element (or an empty
      one with `start > stop`) is left alone, whatever its bounds, since
      `S` is then never indexed. Only swaps are made, so the elements of `S`
      are permuted. */
  method Reverse<T>(S: array<T>, start: int, stop: int)
    requires start >= stop - 1 || (0 <= start && stop <= S.Length)
    modifies S
    ensures 0 <= start <= stop <= S.Length ==> S[..] == ReverseSlice(old(S[..]), start, stop)
    ensures start >= stop - 1 ==> S[..] == old(S[..])
    ensures multiset(S[..]) == multiset(old(S[..]))
    decreases stop - start
  {
    if start < stop - 1 {
      assert 0 <= start && stop <= S.Length;
      ghost var was := S[..];
      S[start], S[stop - 1] := S[stop - 1], S[start];
      assert S[..] == Swap(was, start, stop - 1);
      Reverse(S, start + 1, stop - 1);
      SwapThenReverse(was, start, stop);
      assert S[..] == ReverseSlice(was, start, stop);
      ReverseSlicePermutes(was, start, stop);
    } else if 0 <= start <= stop <= S.Length {
      ShortSliceUnchanged(S[..], start, stop);
    }
  }

  /** `s` with the elements at `i` and `j` exchanged. */
  function Swap<T>(s: seq<T>, i: int, j: int): seq<T>
    requires 0 <= i < |s| && 0 <= j < |s|
  {
    s[i := s[j]][j := s[i]]
  }

  /** Swapping the ends of a slice and reversing its inside reverses it. */
  lemma SwapThenReverse<T>(s: seq<T>, start: int, stop: int)
    requires 0 <= start < stop - 1 && stop <= |s|
    ensures ReverseSlice(Swap(s, start, stop - 1), start + 1, stop - 1) == ReverseSlice(s, start, stop)
  {
    var t := Swap(s, start, stop - 1);
    SliceAt(s, start, stop, 0);
    SliceAt(t, start + 1, stop - 1, 0);
    forall k | 0 <= k < |s|
      ensures ReverseSlice(t, start + 1, stop - 1)[k] == ReverseSlice(s, start, stop)[k]
    {
      SliceAt(s, start, stop, k);
      SliceAt(t, start + 1, stop - 1, k);
    }
  }

  /** A slice of zero or one element is its own reversal. */
  lemma ShortSliceUnchanged<T>(s: seq<T>, start: int, stop: int)
    requires 0 <= start <= stop <= |s| && stop - start <= 1
    ensures ReverseSlice(s, start, stop) == s
  {
    if start == stop {
      assert s[start..stop] == [];
    } else {
      assert s[start..stop] == [s[start]];
      assert Reversed(s[start..stop]) == Reversed(s[start..stop][1..]) + [s[start]];
      assert s[start..stop][1..] == [];
    }
    assert s == s[..start] + s[start..stop] + s[stop..];
  }

  /** Reversing a slice permutes the sequence. */
  lemma ReverseSlicePermutes<T>(s: seq<T>, start: int, stop: int)
    requires 0 <= start <= stop <= |s|
    ensures multiset(ReverseSlice(s, start, stop)) == multiset(s)
  {
    ReversedPermutes(s[start..stop]);
    assert s == s[..start] + s[start..stop] + s[stop..];
  }

  /** Element `k` of `ReverseSlice`. */
  lemma SliceAt<T>(s: seq<T>, start: int, stop: int, k: int)
    requires 0 <= start <= stop <= |s| && 0 <= k < |s|
    ensures |ReverseSlice(s, start, stop)| == |s|
    ensures ReverseSlice(s, start, stop)[k]
         == if start <= k < stop then s[start + stop - 1 - k] else s[k]
  {
    ReversedLength(s[start..stop]);
    if start <= k < stop {
      ReversedAt(s[start..stop], k - start);
    }
  }
}
