/** `binary_search(data, target, low, high)`: whether `target` occurs in the
    inclusive range `data[low..high]` of a sorted list. */
module BinarySearch {

  /** `s` is sorted in non-decreasing order. */
  ghost predicate Sorted(s: seq<int>)
  {
    forall i, j :: 0 <= i < j < |s| ==> s[i] <= s[j]
  }

  /** `target` occurs at some index of the inclusive range `[low, high]`. */
  ghost predicate OccursIn(data: seq<int>, target: int, low: int, high: int)
  {
    exists i :: low <= i <= high && 0 <= i < |data| && data[i] == target
  }

  /** In sorted data an earlier index holds a value no larger. */
  lemma SortedMonotone(s: seq<int>, a: int, b: int)
    requires Sorted(s) && 0 <= a <= b < |s|
    ensures s[a] <= s[b]
  {
    if a < b {
      assert s[a] <= s[b];
    }
  }

  /** `binary_search`. An empty range (`low > high`) gives `false`; the
      midpoint `(low + high) // 2` lies in `[low, high]` (a non-negative sum,
      so floor and Euclidean division agree), hence within `data`, and each
      recursive call strictly shrinks `high - low`. */
  function BinarySearch(data: seq<int>, target: int, low: int, high: int): bool
    requires 0 <= low && high < |data|
    decreases high - low
  {
    if low > high then false
    else
      var mid := (low + high) / 2;
      if target == data[mid] then true
      else if target < data[mid] then BinarySearch(data, target, low, mid - 1)
      else BinarySearch(data, target, mid + 1, high)
  }

  /** A `true` answer is always backed by an occurrence, sorted or not. */
  lemma {:induction false} BinarySearchSound(data: seq<int>, target: int, low: int, high: int)
    requires 0 <= low && high < |data|
    ensures BinarySearch(data, target, low, high) ==> OccursIn(data, target, low, high)
    decreases high - low
  {
    if low <= high {
      var mid := (low + high) / 2;
      if target == data[mid] {
        assert low <= mid <= high;
      } else if target < data[mid] {
        BinarySearchSound(data, target, low, mid - 1);
      } else {
        BinarySearchSound(data, target, mid + 1, high);
      }
    }
  }

  /** On sorted data a target at index `i` of `[low, high]` is found. */
  lemma {:induction false} BinarySearchFindsAt(data: seq<int>, target: int, low: int, high: int, i: int)
    requires Sorted(data)
    requires 0 <= low <= i <= high < |data| && data[i] == target
    ensures BinarySearch(data, target, low, high)
    decreases high - low
  {
    var mid := (low + high) / 2;
    if target < data[mid] {
      SortedMonotone(data, mid, if mid <= i then i else mid);
      assert BinarySearch(data, target, low, high) == BinarySearch(data, target, low, mid - 1);
      BinarySearchFindsAt(data, target, low, mid - 1, i);
    } else if target > data[mid] {
      SortedMonotone(data, if i <= mid then i else mid, mid);
      assert BinarySearch(data, target, low, high) == BinarySearch(data, target, mid + 1, high);
      BinarySearchFindsAt(data, target, mid + 1, high, i);
    }
  }

  /** On sorted data an occurrence is always found. */
  lemma BinarySearchFinds(data: seq<int>, target: int, low: int, high: int)
    requires Sorted(data)
    requires 0 <= low && high < |data|
    requires OccursIn(data, target, low, high)
    ensures BinarySearch(data, target, low, high)
  {
    var i :| low <= i <= high && 0 <= i < |data| && data[i] == target;
    BinarySearchFindsAt(data, target, low, high, i);
  }

  /** On sorted data the answer is exact: `true` if and only if `target`
      occurs in `data[low..high]`. */
  lemma BinarySearchCorrect(data: seq<int>, target: int, low: int, high: int)
    requires Sorted(data)
    requires 0 <= low && high < |data|
    ensures BinarySearch(data, target, low, high) <==> OccursIn(data, target, low, high)
  {
    BinarySearchSound(data, target, low, high);
    if OccursIn(data, target, low, high) {
      BinarySearchFinds(data, target, low, high);
    }
  }

  /** Searching the whole list, `binary_search(data, t, 0, len(data) - 1)`,
      decides membership. */
  lemma BinarySearchWhole(data: seq<int>, target: int)
    requires Sorted(data)
    ensures BinarySearch(data, target, 0, |data| - 1) <==> target in data
  {
    BinarySearchCorrect(data, target, 0, |data| - 1);
    if target in data {
      var i :| 0 <= i < |data| && data[i] == target;
      assert OccursIn(data, target, 0, |data| - 1);
    }
  }
}
