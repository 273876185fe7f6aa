/** `DynamicArray`: a growable array over a fixed-size low-level array that
    is replaced by one of double the capacity when it is full. */
module DynamicArrays {
  import opened PythonModel

  class DynamicArray<T> {
    /** `_n`: the number of elements stored. */
    var n: nat
    /** `_capacity`: the length of the low-level array. */
    var capacity: nat
    /** `_A`: the low-level `ctypes` array; `None` is a slot never written. */
    var A: array<Option<T>>
    /** The logical contents, index 0 first. */
    ghost var Contents: seq<T>

    /** The object invariant: `0 <= _n <= _capacity`, the low-level array
        has `_capacity` slots, and its first `_n` slots hold the contents. */
    ghost predicate Valid()
      reads this, A
    {
      A.Length == capacity &&
      n <= capacity &&
      |Contents| == n &&
      forall i :: 0 <= i < n ==> A[i] == Some(Contents[i])
    }

    /** `__init__`: no elements, capacity 0, an array of 0 slots. */
    constructor ()
      ensures Valid() && fresh(A)
      ensures Contents == [] && capacity == 0
    {
      n, capacity := 0, 0;
      A := new Option<T>[0];
      Contents := [];
    }

    /** `__len__`: the number of elements stored. */
    function Length(): (r: nat)
      requires Valid()
      reads this, A
      ensures r == |Contents| && r <= capacity
    {
      n
    }

    /** `__getitem__`: `IndexError` unless `0 <= k < _n`, otherwise the
        element at index `k`. */
    function Get(k: int): (r: Result<T>)
      requires Valid()
      reads this, A
      ensures r.Failure? <==> !(0 <= k < |Contents|)
      ensures r.Failure? ==> r.error == IndexError
      ensures r.Success? ==> r.value == Contents[k]
    {
      if !(0 <= k < n) then Failure(IndexError) else Success(A[k].value)
    }

    /** `_resize`: allocate a fresh array of `c` slots, copy the first `_n`
        slots into it and use it from now on, with capacity `c`. Every caller
        passes `c >= _n`. */
    method Resize(c: nat)
      requires Valid() && |Contents| <= c
      modifies this
      ensures Valid() && fresh(A)
      ensures capacity == c && n == old(n) && Contents == old(Contents)
    {
      var B := new Option<T>[c](_ => None);
      var k := 0;
      while k < n
        invariant 0 <= k <= n
        invariant forall i :: 0 <= i < k ==> B[i] == A[i]
        modifies B
      {
        B[k] := A[k];
        k := k + 1;
      }
      A := B;
      capacity := c;
    }

    /** `append`, as written: when full, resize to `2 * _capacity`; then
        store at index `_n`. Starting from capacity 0 the doubled capacity is
        still 0, so the store at index 0 raises `IndexError` and nothing is
        added. */
    method Append(obj: T) returns (o: Outcome)
      requires Valid()
      modifies this, A
      ensures Valid() && (A == old(A) || fresh(A))
      ensures capacity == if old(n) == old(capacity) then 2 * old(capacity) else old(capacity)
      ensures o == if old(capacity) == 0 then Fail(IndexError) else Pass
      ensures Contents == if o.Pass? then old(Contents) + [obj] else old(Contents)
    {
      if n == capacity {
        Resize(2 * capacity);
      }
      if n >= A.Length {
        return Fail(IndexError);
      }
      A[n] := Some(obj);
      n := n + 1;
      Contents := Contents + [obj];
      o := Pass;
    }

    /** `append` with the growth rule `max(1, 2 * _capacity)`, which never
        leaves a full array full: the object is always added. */
    method AppendFixed(obj: T)
      requires Valid()
      modifies this, A
      ensures Valid() && (A == old(A) || fresh(A))
      ensures capacity == if old(n) == old(capacity) then Max1(2 * old(capacity)) else old(capacity)
      ensures Contents == old(Contents) + [obj]
    {
      if n == capacity {
        Resize(Max1(2 * capacity));
      }
      A[n] := Some(obj);
      n := n + 1;
      Contents := Contents + [obj];
    }

    /** Shift the slots `k .. _n-1` one place to the right, from the top
        down, and store `value` at `k`: the loop of `insert` and the store
        after it. Needs a free slot at `_n`. */
    method ShiftAndStore(k: int, value: T)
      requires 0 <= k <= n < A.Length
      modifies A
      ensures forall i :: 0 <= i < k ==> A[i] == old(A[i])
      ensures A[k] == Some(value)
      ensures forall i :: k < i <= n ==> A[i] == old(A[i - 1])
      ensures forall i :: n < i < A.Length ==> A[i] == old(A[i])
    {
      var j := n;
      while j > k
        invariant k <= j <= n
        invariant forall i :: 0 <= i <= j ==> A[i] == old(A[i])
        invariant forall i :: j < i <= n ==> A[i] == old(A[i - 1])
        invariant forall i :: n < i < A.Length ==> A[i] == old(A[i])
      {
        A[j] := A[j - 1];
        j := j - 1;
      }
      A[k] := Some(value);
    }

    /** `insert`, as written, for `0 <= k <= _n` (the range the source
        assumes): resize to `2 * _capacity` when full, shift and store. Line
        48 reads the loop variable `j`, which the loop binds only when it runs
        at least once; for `k == _n` it does not run and `insert` raises
        `UnboundLocalError` after the resize and before anything is stored. */
    method Insert(k: int, value: T) returns (o: Outcome)
      requires Valid() && 0 <= k <= |Contents|
      modifies this, A
      ensures Valid() && (A == old(A) || fresh(A))
      ensures capacity == if old(n) == old(capacity) then 2 * old(capacity) else old(capacity)
      ensures o == if k == |old(Contents)| then Fail(UnboundLocalError) else Pass
      ensures Contents == if o.Pass? then old(Contents)[..k] + [value] + old(Contents)[k..]
                          else old(Contents)
    {
      if n == capacity {
        Resize(2 * capacity);
      }
      if k == n {
        return Fail(UnboundLocalError);
      }
      // Here k < n, so the loop runs and line 48 compares two stored slots.
      ShiftAndStore(k, value);
      n := n + 1;
      Contents := Contents[..k] + [value] + Contents[k..];
      forall i | 0 <= i < n
        ensures A[i] == Some(Contents[i])
      {
        if i > k {
          assert Contents[i] == old(Contents)[i - 1];
        }
      }
      o := Pass;
    }

    /** `insert` without line 48, with the growth rule `max(1, 2 * _capacity)`
        and the range check of the book's own version: `IndexError` unless
        `0 <= k <= _n`, otherwise `value` lands at index `k`. */
    method InsertFixed(k: int, value: T) returns (o: Outcome)
      requires Valid()
      modifies this, A
      ensures Valid() && (A == old(A) || fresh(A))
      ensures o == if 0 <= k <= |old(Contents)| then Pass else Fail(IndexError)
      ensures Contents == if o.Pass? then old(Contents)[..k] + [value] + old(Contents)[k..]
                          else old(Contents)
    {
      if !(0 <= k <= n) {
        return Fail(IndexError);
      }
      if n == capacity {
        Resize(Max1(2 * capacity));
      }
      ShiftAndStore(k, value);
      n := n + 1;
      Contents := Contents[..k] + [value] + Contents[k..];
      forall i | 0 <= i < n
        ensures A[i] == Some(Contents[i])
      {
        if i > k {
          assert Contents[i] == old(Contents)[i - 1];
        }
      }
      o := Pass;
    }
  }

  /** `max(1, c)`. */
  function Max1(c: int): (m: int)
    ensures m >= 1 && m >= c && (m == 1 || m == c)
  {
    if c < 1 then 1 else c
  }

  /** As written, the very first `append` to a new array fails. */
  method FreshAppendFails<T>(obj: T) returns (o: Outcome)
    ensures o == Fail(IndexError)
  {
    var d := new DynamicArray<T>();
    o := d.Append(obj);
  }

  /** As written, a new array stays empty however many values are appended
        to it: the capacity stays 0 and every `append` fails. */
  method AppendAllAsWritten<T>(xs: seq<T>) returns (length: nat)
    ensures length == 0
  {
    var d := new DynamicArray<T>();
    var i := 0;
    while i < |xs|
      invariant 0 <= i <= |xs|
      invariant fresh(d) && fresh(d.A)
      invariant d.Valid() && d.capacity == 0 && d.Contents == []
    {
      var _ := d.Append(xs[i]);
      i := i + 1;
    }
    length := d.Length();
  }

  /** As written, `insert(0, v)` on a new array — the one index the source
      allows there — raises `UnboundLocalError`. */
  method FreshInsertFails<T>(value: T) returns (o: Outcome)
    ensures o == Fail(UnboundLocalError)
  {
    var d := new DynamicArray<T>();
    o := d.Insert(0, value);
  }

  /** With the corrected growth rule, appending `xs` one by one to a new
      array and reading back every index gives `xs`. */
  method AppendAllFixed<T>(xs: seq<T>) returns (ys: seq<T>)
    ensures ys == xs
  {
    var d := new DynamicArray<T>();
    var i := 0;
    while i < |xs|
      invariant 0 <= i <= |xs|
      invariant fresh(d) && fresh(d.A)
      invariant d.Valid() && d.Contents == xs[..i]
    {
      d.AppendFixed(xs[i]);
      i := i + 1;
    }
    assert xs[..i] == xs;
    ys := [];
    var k := 0;
    while k < d.Length()
      invariant 0 <= k <= |xs|
      invariant ys == xs[..k]
    {
      var r := d.Get(k);
      ys := ys + [r.value];
      k := k + 1;
    }
  }
}
