/** `insertion_sort(A)`: sort a list in place by inserting each element into
    the sorted prefix before it. Elements are compared by an integer key,
    which stands for Python's `>` on the elements as a total preorder. */
module InsertionSort {

  /** `s` is in non-decreasing key order. */
  ghost predicate SortedBy<T>(s: seq<T>, key: T -> int)
  {
    forall i, j :: 0 <= i < j < |s| ==> key(s[i]) <= key(s[j])
  }

  /** Insert `x` into `s` the way the inner loop does: walk from the back past
      every element whose key is greater than that of `x` (strict `>`), and
      place `x` after the first one that is not. */
  function Insert<T>(s: seq<T>, x: T, key: T -> int): seq<T>
    decreases |s|
  {
    if s == [] then [x]
    else if key(s[|s| - 1]) > key(x) then Insert(s[..|s| - 1], x, key) + [s[|s| - 1]]
    else s + [x]
  }

  /** The result of the outer loop after the whole list: each element in
      turn inserted into the already sorted prefix. */
  function InsertionSorted<T>(s: seq<T>, key: T -> int): seq<T>
    decreases |s|
  {
    if s == [] then [] else Insert(InsertionSorted(s[..|s| - 1], key), s[|s| - 1], key)
  }

  /** The elements of `s` whose key is `v`, in their order in `s`. */
  function WithKey<T>(s: seq<T>, v: int, key: T -> int): seq<T>
    decreases |s|
  {
    if s == [] then []
    else (if key(s[0]) == v then [s[0]] else []) + WithKey(s[1..], v, key)
  }

  /** Selecting by key distributes over concatenation. */
  lemma {:induction false} WithKeyConcat<T>(a: seq<T>, b: seq<T>, v: int, key: T -> int)
    ensures WithKey(a + b, v, key) == WithKey(a, v, key) + WithKey(b, v, key)
    decreases |a|
  {
    if a == [] {
      assert a + b == b;
    } else {
      var c := a + b;
      var head := if key(a[0]) == v then [a[0]] else [];
      assert c[0] == a[0] && c[1..] == a[1..] + b;
      WithKeyConcat(a[1..], b, v, key);
      calc {
        WithKey(c, v, key);
        head + WithKey(a[1..] + b, v, key);
        head + (WithKey(a[1..], v, key) + WithKey(b, v, key));
        (head + WithKey(a[1..], v, key)) + WithKey(b, v, key);
      }
    }
  }

  /** Inserting adds `x` and removes nothing. */
  lemma {:induction false} InsertPermutes<T>(s: seq<T>, x: T, key: T -> int)
    ensures multiset(Insert(s, x, key)) == multiset(s) + multiset{x}
    decreases |s|
  {
    if s != [] && key(s[|s| - 1]) > key(x) {
      InsertPermutes(s[..|s| - 1], x, key);
      assert s == s[..|s| - 1] + [s[|s| - 1]];
    }
  }

  /** Inserting into a sorted sequence keeps it sorted. */
  lemma {:induction false} InsertSorted<T>(s: seq<T>, x: T, key: T -> int)
    requires SortedBy(s, key)
    ensures SortedBy(Insert(s, x, key), key)
    ensures |Insert(s, x, key)| == |s| + 1
    ensures Insert(s, x, key) != [] && (s != [] ==> key(Insert(s, x, key)[|s|]) == Max(key(s[|s| - 1]), key(x)))
    decreases |s|
  {
    if s != [] && key(s[|s| - 1]) > key(x) {
      var init := s[..|s| - 1];
      InsertSorted(init, x, key);
      var r := Insert(init, x, key);
      assert Insert(s, x, key) == r + [s[|s| - 1]];
      if init != [] {
        assert key(r[|init|]) <= key(s[|s| - 1]);
      }
      assert forall i :: 0 <= i < |r| ==> key(r[i]) <= key(r[|r| - 1]);
    }
  }

  function Max(a: int, b: int): int { if a < b then b else a }

  /** Inserting puts `x` after every element with the same key: the elements
      of any one key keep their order, with `x` last among its own. */
  lemma {:induction false} InsertStable<T>(s: seq<T>, x: T, v: int, key: T -> int)
    ensures WithKey(Insert(s, x, key), v, key)
         == WithKey(s, v, key) + (if key(x) == v then [x] else [])
    decreases |s|
  {
    if s == [] {
      assert WithKey([x], v, key) == (if key(x) == v then [x] else []) + WithKey([], v, key);
    } else {
      var init, last := s[..|s| - 1], s[|s| - 1];
      assert s == init + [last];
      WithKeyConcat(init, [last], v, key);
      if key(last) > key(x) {
        InsertStable(init, x, v, key);
        WithKeyConcat(Insert(init, x, key), [last], v, key);
      } else {
        WithKeyConcat(s, [x], v, key);
      }
    }
  }

  /** The sorted result is in non-decreasing key order. */
  lemma {:induction false} InsertionSortedIsSorted<T>(s: seq<T>, key: T -> int)
    ensures SortedBy(InsertionSorted(s, key), key)
    decreases |s|
  {
    if s != [] {
      InsertionSortedIsSorted(s[..|s| - 1], key);
      InsertSorted(InsertionSorted(s[..|s| - 1], key), s[|s| - 1], key);
    }
  }

  /** The sorted result is a permutation of the input. */
  lemma {:induction false} InsertionSortedPermutes<T>(s: seq<T>, key: T -> int)
    ensures multiset(InsertionSorted(s, key)) == multiset(s)
    decreases |s|
  {
    if s != [] {
      InsertionSortedPermutes(s[..|s| - 1], key);
      InsertPermutes(InsertionSorted(s[..|s| - 1], key), s[|s| - 1], key);
      assert s == s[..|s| - 1] + [s[|s| - 1]];
    }
  }

  /** The sort is stable: the elements of each key appear in the result in
      the order they had in the input. */
  lemma {:induction false} InsertionSortedIsStable<T>(s: seq<T>, v: int, key: T -> int)
    ensures WithKey(InsertionSorted(s, key), v, key) == WithKey(s, v, key)
    decreases |s|
  {
    if s != [] {
      var init, last := s[..|s| - 1], s[|s| - 1];
      InsertionSortedIsStable(init, v, key);
      InsertStable(InsertionSorted(init, key), last, v, key);
      assert s == init + [last];
      WithKeyConcat(init, [last], v, key);
      assert WithKey([last], v, key) == (if key(last) == v then [last] else []) + WithKey([], v, key);
    }
  }

  /** One step of the inner loop: moving left past an element whose key is
      greater than that of `x` puts that element after the insertion. */
  lemma InsertPastGreater<T>(P: seq<T>, j: int, x: T, key: T -> int)
    requires 0 < j <= |P| && key(P[j - 1]) > key(x)
    ensures Insert(P[..j], x, key) + P[j..] == Insert(P[..j - 1], x, key) + P[j - 1..]
  {
    assert P[..j][..j - 1] == P[..j - 1];
    assert P[j - 1..] == [P[j - 1]] + P[j..];
  }

  /** Where the inner loop stops, `x` goes right after the prefix. */
  lemma InsertStops<T>(P: seq<T>, j: int, x: T, key: T -> int)
    requires 0 <= j <= |P| && (j == 0 || key(P[j - 1]) <= key(x))
    ensures Insert(P[..j], x, key) == P[..j] + [x]
  {
  }

  /** One pass of the outer loop (lines 5-10 of the source): lift `A[k]` out,
      shift every element of `A[..k]` whose key is greater one place right,
      and drop it into the gap. Nothing past `k` is touched. */
  method InsertAt<T>(A: array<T>, k: int, key: T -> int)
    requires 0 <= k < A.Length
    modifies A
    ensures A[..k + 1] == Insert(old(A[..k]), old(A[k]), key)
    ensures A[k + 1..] == old(A[k + 1..])
  {
    ghost var P, rest := A[..k], A[k + 1..];
    var cur := A[k];
    var j := k;
    assert A[..] == P[..j] + [A[j]] + P[j..] + rest;
    assert P[..j] == P && P[j..] == [];
    while j > 0 && key(A[j - 1]) > key(cur)
      invariant 0 <= j <= k
      invariant A[..] == P[..j] + [A[j]] + P[j..] + rest
      invariant Insert(P, cur, key) == Insert(P[..j], cur, key) + P[j..]
    {
      InsertPastGreater(P, j, cur, key);
      ShiftOne(A[..], P, rest, j);
      A[j] := A[j - 1];
      j := j - 1;
    }
    ghost var before := A[..];
    A[j] := cur;
    InsertStops(P, j, cur, key);
    Fill(before, P, rest, j, cur);
  }

  /** Shifting one element right inside the gapped array. */
  lemma ShiftOne<T>(s: seq<T>, P: seq<T>, rest: seq<T>, j: int)
    requires 0 < j <= |P| && j < |s| && s == P[..j] + [s[j]] + P[j..] + rest
    ensures s[j := s[j - 1]] == P[..j - 1] + [s[j - 1]] + P[j - 1..] + rest
  {
    assert s[j - 1] == P[j - 1];
    assert P[..j] == P[..j - 1] + [P[j - 1]];
    assert P[j - 1..] == [P[j - 1]] + P[j..];
  }

  /** Filling the gap at `j` with `x`. */
  lemma Fill<T>(s: seq<T>, P: seq<T>, rest: seq<T>, j: int, x: T)
    requires 0 <= j <= |P| && j < |s| && s == P[..j] + [s[j]] + P[j..] + rest
    ensures s[j := x][..|P| + 1] == P[..j] + [x] + P[j..]
    ensures s[j := x][|P| + 1..] == rest
  {
    assert s[j := x] == (P[..j] + [x] + P[j..]) + rest;
  }

  /** `insertion_sort`: insert `A[k]` into the sorted prefix for every `k`
      from 1 to `len(A) - 1`. Afterwards `A` holds the insertion-sorted
      input, which is sorted, a permutation of the input and stable by the
      lemmas above (the strict `>` shifts only strictly greater keys). */
  method InsertionSort<T>(A: array<T>, key: T -> int)
    modifies A
    ensures A[..] == InsertionSorted(old(A[..]), key)
  {
    ghost var orig := A[..];
    var n := A.Length;
    var k := 1;
    while k < n
      invariant n > 0 ==> 1 <= k <= n
      invariant n > 0 ==> A[..k] == InsertionSorted(orig[..k], key)
      invariant n > 0 ==> A[k..] == orig[k..]
    {
      InsertAt(A, k, key);
      assert orig[..k + 1] == orig[..k] + [orig[k]];
      k := k + 1;
    }
    if n == 0 {
      assert orig == [];
    } else {
      assert A[..] == A[..n] && orig == orig[..n];
    }
  }
}
