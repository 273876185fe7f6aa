/** `SimpleArray`: a bounded list over a fixed Python list of `capacity`
    slots, with shifting insertion and removal. */
module SimpleArrays {
  import opened PythonModel

  class SimpleArray<T> {
    const capacity: nat
    /** The Python list `array`: `Some(x)` for a stored `x`, `None` for an
        empty slot. */
    var slots: array<Option<T>>
    var size: nat
    /** The logical contents, `array[:size]`. */
    ghost var Contents: seq<T>

    /** The object invariant: `0 <= size <= capacity`, the first `size`
        slots hold the contents in order and every later slot is `None`. */
    ghost predicate Valid()
      reads this, slots
    {
      slots.Length == capacity &&
      size <= capacity &&
      |Contents| == size &&
      forall i :: 0 <= i < capacity ==>
        slots[i] == if i < size then Some(Contents[i]) else None
    }

    /** `__init__`: `capacity` slots, all `None`, and size 0. */
    constructor (capacity: nat)
      ensures Valid() && fresh(slots)
      ensures this.capacity == capacity && Contents == []
    {
      this.capacity := capacity;
      slots := new Option<T>[capacity](_ => None);
      size := 0;
      Contents := [];
    }

    /** `is_empty`. */
    predicate IsEmpty()
      requires Valid()
      reads this, slots
      ensures IsEmpty() <==> Contents == []
    {
      size == 0
    }

    /** `is_full`. */
    predicate IsFull()
      requires Valid()
      reads this, slots
      ensures IsFull() <==> |Contents| == capacity
    {
      size == capacity
    }

    /** `push_back`: `OverflowError` when full, otherwise append. */
    method PushBack(data: T) returns (o: Outcome)
      requires Valid()
      modifies this, slots
      ensures Valid() && slots == old(slots)
      ensures o == if |old(Contents)| == capacity then Fail(OverflowError) else Pass
      ensures Contents == if o.Pass? then old(Contents) + [data] else old(Contents)
    {
      if IsFull() {
        return Fail(OverflowError);
      }
      slots[size] := Some(data);
      size := size + 1;
      Contents := Contents + [data];
      o := Pass;
    }

    /** `push_front`: `OverflowError` when full, otherwise shift every element
        one slot right, from the back, and store `data` in slot 0. */
    method PushFront(data: T) returns (o: Outcome)
      requires Valid()
      modifies this, slots
      ensures Valid() && slots == old(slots)
      ensures o == if |old(Contents)| == capacity then Fail(OverflowError) else Pass
      ensures Contents == if o.Pass? then [data] + old(Contents) else old(Contents)
    {
      if IsFull() {
        return Fail(OverflowError);
      }
      ShiftRight(0);
      ghost var C := Contents;
      slots[0] := Some(data);
      size := size + 1;
      Contents := [data] + C;
      forall m | 0 <= m < capacity
        ensures slots[m] == if m < size then Some(Contents[m]) else None
      {
        if 0 < m < size {
          assert Contents[m] == C[m - 1];
        }
      }
      o := Pass;
    }

    /** `pop_back`: `IndexError` when empty, otherwise return the last
        element and clear its slot. */
    method PopBack() returns (r: Result<T>)
      requires Valid()
      modifies this, slots
      ensures Valid() && slots == old(slots)
      ensures r == if old(Contents) == [] then Failure(IndexError)
                   else Success(old(Contents)[|old(Contents)| - 1])
      ensures Contents == if r.Success? then old(Contents)[..|old(Contents)| - 1] else old(Contents)
    {
      if IsEmpty() {
        return Failure(IndexError);
      }
      var value := slots[size - 1];
      slots[size - 1] := None;
      size := size - 1;
      Contents := Contents[..size];
      r := Success(value.value);
    }

    /** `pop_front`: `IndexError` when empty, otherwise return the first
        element, shift the rest one slot left and clear the last slot. */
    method PopFront() returns (r: Result<T>)
      requires Valid()
      modifies this, slots
      ensures Valid() && slots == old(slots)
      ensures r == if old(Contents) == [] then Failure(IndexError) else Success(old(Contents)[0])
      ensures Contents == if r.Success? then old(Contents)[1..] else old(Contents)
    {
      if IsEmpty() {
        return Failure(IndexError);
      }
      var value := slots[0];
      ShiftLeft(0);
      slots[size - 1] := None;
      ghost var C := Contents;
      size := size - 1;
      Contents := C[1..];
      forall m | 0 <= m < capacity
        ensures slots[m] == if m < size then Some(Contents[m]) else None
      {
        if m < size {
          assert Contents[m] == C[m + 1];
        }
      }
      r := Success(value.value);
    }

    /** `insert`: `OverflowError` when full (checked first), `IndexError`
        unless `0 <= position <= size`, otherwise shift the elements from
        `position` on one slot right and store `data` at `position`. */
    method Insert(data: T, position: int) returns (o: Outcome)
      requires Valid()
      modifies this, slots
      ensures Valid() && slots == old(slots)
      ensures o == if |old(Contents)| == capacity then Fail(OverflowError)
                   else if position < 0 || position > |old(Contents)| then Fail(IndexError)
                   else Pass
      ensures Contents == if o.Pass? then old(Contents)[..position] + [data] + old(Contents)[position..]
                          else old(Contents)
    {
      if IsFull() {
        return Fail(OverflowError);
      }
      if position < 0 || position > size {
        return Fail(IndexError);
      }
      ShiftRight(position);
      ghost var C := Contents;
      slots[position] := Some(data);
      size := size + 1;
      Contents := C[..position] + [data] + C[position..];
      forall m | 0 <= m < capacity
        ensures slots[m] == if m < size then Some(Contents[m]) else None
      {
        if m < position {
          assert Contents[m] == C[m];
        } else if position < m < size {
          assert Contents[m] == C[m - 1];
        }
      }
      o := Pass;
    }

    /** `remove`: `IndexError` when empty or unless `0 <= position < size`,
        otherwise return the element at `position`, shift the later ones one
        slot left and clear the last slot. */
    method Remove(position: int) returns (r: Result<T>)
      requires Valid()
      modifies this, slots
      ensures Valid() && slots == old(slots)
      ensures r == if old(Contents) == [] || position < 0 || position >= |old(Contents)| then Failure(IndexError)
                   else Success(old(Contents)[position])
      ensures Contents == if r.Success? then old(Contents)[..position] + old(Contents)[position + 1..]
                          else old(Contents)
    {
      if IsEmpty() {
        return Failure(IndexError);
      }
      if position < 0 || position >= size {
        return Failure(IndexError);
      }
      var value := slots[position];
      ShiftLeft(position);
      slots[size - 1] := None;
      ghost var C := Contents;
      size := size - 1;
      Contents := C[..position] + C[position + 1..];
      forall m | 0 <= m < capacity
        ensures slots[m] == if m < size then Some(Contents[m]) else None
      {
        if m < position {
          assert Contents[m] == C[m];
        } else if position <= m < size {
          assert Contents[m] == C[m + 1];
        }
      }
      r := Success(value.value);
    }

    /** The shift loop of `push_front` (with `position` 0) and `insert`:
        from slot `size` down to `position + 1`, each slot takes the value of
        the slot before it, so `position .. size-1` move one place right. */
    method ShiftRight(position: int)
      requires 0 <= position <= size < slots.Length
      modifies slots
      ensures forall m :: 0 <= m <= position ==> slots[m] == old(slots[m])
      ensures forall m :: position < m <= size ==> slots[m] == old(slots[m - 1])
      ensures forall m :: size < m < slots.Length ==> slots[m] == old(slots[m])
    {
      var i := size;
      while i > position
        invariant position <= i <= size
        invariant forall m :: 0 <= m <= i ==> slots[m] == old(slots[m])
        invariant forall m :: i < m <= size ==> slots[m] == old(slots[m - 1])
        invariant forall m :: size < m < slots.Length ==> slots[m] == old(slots[m])
      {
        slots[i] := slots[i - 1];
        i := i - 1;
      }
    }

    /** The shift loop of `pop_front` (with `position` 0) and `remove`:
        from slot `position + 1` up to `size - 1`, each slot's value is
        copied into the slot before it, so `position+1 .. size-1` move one
        place left. */
    method ShiftLeft(position: int)
      requires 0 <= position < size <= slots.Length
      modifies slots
      ensures forall m :: 0 <= m < position ==> slots[m] == old(slots[m])
      ensures forall m :: position <= m < size - 1 ==> slots[m] == old(slots[m + 1])
      ensures forall m :: size - 1 <= m < slots.Length ==> slots[m] == old(slots[m])
    {
      var i := position + 1;
      while i < size
        invariant position + 1 <= i <= size
        invariant forall m :: 0 <= m < position ==> slots[m] == old(slots[m])
        invariant forall m :: position <= m < i - 1 ==> slots[m] == old(slots[m + 1])
        invariant forall m :: i - 1 <= m < slots.Length ==> slots[m] == old(slots[m])
      {
        slots[i - 1] := slots[i];
        i := i + 1;
      }
    }

    /** `__str__`: the list `array[:size]` it formats, that is, the values
        of the first `size` slots, which are exactly the contents. */
    function Str(): (shown: seq<T>)
      requires Valid()
      reads this, slots
      ensures |shown| == size
      ensures forall i :: 0 <= i < |shown| ==> slots[i] == Some(shown[i])
      ensures shown == Contents
    {
      var a, n := slots, size;
      seq(n, i requires 0 <= i < n && i < a.Length && a[i].Some? reads a => a[i].value)
    }
  }

  /** The two ends behave as a deque: on a new array with room for three,
      `push_back(x)`, `push_front(y)` and `insert(z, 1)` fill it as
      `[y, z, x]`, so a further `push_back` overflows; then `pop_front`,
      `remove(0)` and `pop_back` give back `y`, `z` and `x` and leave the
      array empty. */
  method EndsRoundTrip<T>(x: T, y: T, z: T) returns (a: Result<T>, b: Result<T>, c: Result<T>,
                                                    overflow: Outcome, empty: bool)
    ensures a == Success(y) && b == Success(z) && c == Success(x)
    ensures overflow == Fail(OverflowError) && empty
  {
    var arr := new SimpleArray<T>(3);
    var _ := arr.PushBack(x);
    assert arr.Contents == [x];
    var _ := arr.PushFront(y);
    assert arr.Contents == [y, x];
    var _ := arr.Insert(z, 1);
    assert arr.Contents == [y] + [z] + [x];
    overflow := arr.PushBack(x);
    a := arr.PopFront();
    assert arr.Contents == [z, x];
    b := arr.Remove(0);
    assert arr.Contents == [x];
    c := arr.PopBack();
    empty := arr.IsEmpty();
  }
}
