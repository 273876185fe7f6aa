/** `CircularArray`: a bounded double-ended queue over a fixed Python list,
    with wrap-around `front` and `tail` indices. */
module CircularArrays {
  import opened PythonModel

  /** Python's `a % c` for a positive `c`, when `0 <= a < 2 * c`. (Dafny's
      `%` agrees with Python's for a positive divisor.) */
  lemma ModOnce(a: int, c: int)
    requires 0 < c && 0 <= a < 2 * c
    ensures a % c == if a < c then a else a - c
  {
    if a >= c {
      assert a == 1 * c + (a - c);
    }
  }

  /** The logical position of slot `j` in a buffer of `c` slots whose front
      is `f`, that is `(j - f) % c`. */
  function Offset(j: int, f: int, c: int): int
  {
    if j >= f then j - f else j - f + c
  }

  /** The slot of logical position `i`, that is `(f + i) % c`, for
      `0 <= i <= c`. */
  function Slot(i: int, f: int, c: int): int
  {
    if f + i < c then f + i else f + i - c
  }

  /** `s` holds the contents `C` from slot `f` on, wrapping round, and `None`
      in every other slot. */
  ghost predicate Laid<T>(s: seq<Option<T>>, f: int, C: seq<T>)
  {
    forall j :: 0 <= j < |s| ==>
      s[j] == if 0 <= Offset(j, f, |s|) < |C| then Some(C[Offset(j, f, |s|)]) else None
  }

  /** Storing at the slot after the last element appends. */
  lemma LaidPushBack<T>(s: seq<Option<T>>, f: int, C: seq<T>, x: T)
    requires 0 <= f < |s| && |C| < |s| && Laid(s, f, C)
    ensures Laid(s[Slot(|C|, f, |s|) := Some(x)], f, C + [x])
  {
    var t := s[Slot(|C|, f, |s|) := Some(x)];
    forall j | 0 <= j < |t|
      ensures t[j] == if Offset(j, f, |t|) < |C| + 1 then Some((C + [x])[Offset(j, f, |t|)]) else None
    {
    }
  }

  /** Storing at the slot before the front prepends. */
  lemma LaidPushFront<T>(s: seq<Option<T>>, f: int, C: seq<T>, x: T)
    requires 0 <= f < |s| && |C| < |s| && Laid(s, f, C)
    ensures Laid(s[Slot(|s| - 1, f, |s|) := Some(x)], Slot(|s| - 1, f, |s|), [x] + C)
  {
    var g := Slot(|s| - 1, f, |s|);
    var t := s[g := Some(x)];
    forall j | 0 <= j < |t|
      ensures t[j] == if Offset(j, g, |t|) < |C| + 1 then Some(([x] + C)[Offset(j, g, |t|)]) else None
    {
      if j != g {
        assert Offset(j, g, |t|) == Offset(j, f, |s|) + 1;
      }
    }
  }

  /** Clearing the front slot drops the first element. */
  lemma LaidPopFront<T>(s: seq<Option<T>>, f: int, C: seq<T>)
    requires 0 <= f < |s| && 0 < |C| <= |s| && Laid(s, f, C)
    ensures s[f] == Some(C[0])
    ensures Laid(s[f := None], Slot(1, f, |s|), C[1..])
  {
    assert Offset(f, f, |s|) == 0;
    var g := Slot(1, f, |s|);
    var t := s[f := None];
    forall j | 0 <= j < |t|
      ensures t[j] == if Offset(j, g, |t|) < |C| - 1 then Some(C[1..][Offset(j, g, |t|)]) else None
    {
      if j != f {
        assert Offset(j, g, |t|) == Offset(j, f, |s|) - 1;
      }
    }
  }

  /** Clearing the slot of the last element drops it. */
  lemma LaidPopBack<T>(s: seq<Option<T>>, f: int, C: seq<T>)
    requires 0 <= f < |s| && 0 < |C| <= |s| && Laid(s, f, C)
    ensures s[Slot(|C| - 1, f, |s|)] == Some(C[|C| - 1])
    ensures Laid(s[Slot(|C| - 1, f, |s|) := None], f, C[..|C| - 1])
  {
    var b := Slot(|C| - 1, f, |s|);
    assert Offset(b, f, |s|) == |C| - 1;
    var t := s[b := None];
    forall j | 0 <= j < |t|
      ensures t[j] == if Offset(j, f, |t|) < |C| - 1 then Some(C[..|C| - 1][Offset(j, f, |t|)]) else None
    {
    }
  }

  /** The ring invariant on plain values: `s` has the capacity as length;
      `f` is the front slot; `t` is the slot of the last element, or while
      empty the slot before `f` (-1 before the first push); and `s` holds
      `C` from `f` on, wrapping, with `None` elsewhere. With capacity 0
      nothing ever moves. */
  ghost predicate Ring<T>(s: seq<Option<T>>, f: int, t: int, C: seq<T>)
  {
    |C| <= |s| &&
    (|s| == 0 ==> f == 0 && t == -1) &&
    (|s| > 0 ==>
      0 <= f < |s| && -1 <= t < |s| &&
      (|C| > 0 ==> t == Slot(|C| - 1, f, |s|)) &&
      (|C| == 0 ==> t == f - 1 || (f == 0 && t == |s| - 1))) &&
    Laid(s, f, C)
  }

  /** `push_back` on values: the tail moves to `(t + 1) % capacity`, the
      new last slot. */
  lemma RingPushBack<T>(s: seq<Option<T>>, f: int, t: int, C: seq<T>, x: T)
    requires Ring(s, f, t, C) && |C| < |s|
    ensures (t + 1) % |s| == Slot(|C|, f, |s|)
    ensures Ring(s[(t + 1) % |s| := Some(x)], f, (t + 1) % |s|, C + [x])
  {
    LaidPushBack(s, f, C, x);
    ModOnce(t + 1, |s|);
  }

  /** `pop_back` on values: the tail slot holds the last element; it is
      cleared and the tail moves to `(t - 1 + capacity) % capacity`. */
  lemma RingPopBack<T>(s: seq<Option<T>>, f: int, t: int, C: seq<T>)
    requires Ring(s, f, t, C) && |C| > 0
    ensures 0 <= t < |s| && s[t] == Some(C[|C| - 1])
    ensures Ring(s[t := None], f, (t - 1 + |s|) % |s|, C[..|C| - 1])
  {
    LaidPopBack(s, f, C);
    ModOnce(t - 1 + |s|, |s|);
  }

  /** `push_front` on values: the front moves to `(f - 1 + capacity) %
      capacity`, and a first element is also the tail. */
  lemma RingPushFront<T>(s: seq<Option<T>>, f: int, t: int, C: seq<T>, x: T)
    requires Ring(s, f, t, C) && |C| < |s|
    ensures var g := (f - 1 + |s|) % |s|;
      Ring(s[g := Some(x)], g, if |C| == 0 then g else t, [x] + C)
  {
    LaidPushFront(s, f, C, x);
    ModOnce(f - 1 + |s|, |s|);
  }

  /** `pop_front` on values: the front slot holds the first element; it is
      cleared and the front moves to `(f + 1) % capacity`. */
  lemma RingPopFront<T>(s: seq<Option<T>>, f: int, t: int, C: seq<T>)
    requires Ring(s, f, t, C) && |C| > 0
    ensures 0 <= f < |s| && s[f] == Some(C[0])
    ensures Ring(s[f := None], (f + 1) % |s|, t, C[1..])
  {
    LaidPopFront(s, f, C);
    ModOnce(f + 1, |s|);
  }

  class CircularArray<T> {
    const capacity: nat
    /** The Python list `array`: `Some(x)` for a stored `x`, `None` for a
        free slot. */
    var slots: array<Option<T>>
    var front: int
    var tail: int
    var size: nat
    /** The logical contents, front to tail. */
    ghost var Contents: seq<T>

    /** The object invariant: the ring invariant over the slots, with
        `size` elements. */
    ghost predicate Valid()
      reads this, slots
    {
      slots.Length == capacity &&
      |Contents| == size &&
      Ring(slots[..], front, tail, Contents)
    }

    /** `__init__`: all slots `None`, `front = 0`, `tail = -1`, size 0. */
    constructor (capacity: nat)
      ensures Valid() && fresh(slots)
      ensures this.capacity == capacity && Contents == []
      ensures front == 0 && tail == -1
    {
      this.capacity := capacity;
      slots := new Option<T>[capacity](_ => None);
      front, tail, size := 0, -1, 0;
      Contents := [];
    }

    /** The tail invariant in the form the source keeps it:
        `(tail + 1) % capacity == (front + size) % capacity`. */
    lemma TailFollowsFront()
      requires Valid() && capacity > 0
      ensures (tail + 1) % capacity == (front + size) % capacity
    {
      if size > 0 {
        ModOnce(front + size, capacity);
        ModOnce(tail + 1, capacity);
      } else if tail == front - 1 {
      } else {
        assert (tail + 1) % capacity == 1 * capacity % capacity;
      }
    }

    /** `push_back`: `OverflowError` exactly when `size == capacity`; otherwise
        `tail` moves one slot on and the value is appended. */
    method PushBack(valor: T) returns (o: Outcome)
      requires Valid()
      modifies this, slots
      ensures Valid() && slots == old(slots) && front == old(front)
      ensures o == if |old(Contents)| == capacity then Fail(OverflowError) else Pass
      ensures Contents == if o.Pass? then old(Contents) + [valor] else old(Contents)
      ensures tail == if o.Pass? then (old(tail) + 1) % capacity else old(tail)
    {
      if size == capacity {
        return Fail(OverflowError);
      }
      ghost var was := slots[..];
      RingPushBack(was, front, tail, Contents, valor);
      tail := (tail + 1) % capacity;
      slots[tail] := Some(valor);
      assert slots[..] == was[tail := Some(valor)];
      size := size + 1;
      Contents := Contents + [valor];
      o := Pass;
    }

    /** `pop_back`: `IndexError` exactly when `size == 0`; otherwise return
        the last element, set its slot to `None` and move `tail` one slot
        back. */
    method PopBack() returns (r: Result<T>)
      requires Valid()
      modifies this, slots
      ensures Valid() && slots == old(slots) && front == old(front)
      ensures r == if old(Contents) == [] then Failure(IndexError)
                   else Success(old(Contents)[|old(Contents)| - 1])
      ensures Contents == if r.Success? then old(Contents)[..|old(Contents)| - 1] else old(Contents)
      ensures tail == if r.Success? then (old(tail) - 1 + capacity) % capacity else old(tail)
    {
      if size == 0 {
        return Failure(IndexError);
      }
      ghost var was := slots[..];
      RingPopBack(was, front, tail, Contents);
      var valor := slots[tail];
      slots[tail] := None;
      assert slots[..] == was[tail := None];
      tail := (tail - 1 + capacity) % capacity;
      size := size - 1;
      Contents := Contents[..size];
      r := Success(valor.value);
    }

    /** `push_front`: `OverflowError` exactly when `size == capacity`;
        otherwise `front` moves one slot back and the value is prepended. The
        first element also becomes the tail, so it is both ends. */
    method PushFront(valor: T) returns (o: Outcome)
      requires Valid()
      modifies this, slots
      ensures Valid() && slots == old(slots)
      ensures o == if |old(Contents)| == capacity then Fail(OverflowError) else Pass
      ensures Contents == if o.Pass? then [valor] + old(Contents) else old(Contents)
      ensures front == if o.Pass? then (old(front) - 1 + capacity) % capacity else old(front)
      ensures tail == if o.Pass? && old(size) == 0 then front else old(tail)
    {
      if size == capacity {
        return Fail(OverflowError);
      }
      ghost var was := slots[..];
      RingPushFront(was, front, tail, Contents, valor);
      front := (front - 1 + capacity) % capacity;
      slots[front] := Some(valor);
      assert slots[..] == was[front := Some(valor)];
      size := size + 1;
      Contents := [valor] + Contents;
      if size == 1 {
        tail := front;
      }
      o := Pass;
    }

    /** `pop_front`: `IndexError` exactly when `size == 0`; otherwise return
        the first element, set its slot to `None` and move `front` one slot
        on. */
    method PopFront() returns (r: Result<T>)
      requires Valid()
      modifies this, slots
      ensures Valid() && slots == old(slots) && tail == old(tail)
      ensures r == if old(Contents) == [] then Failure(IndexError) else Success(old(Contents)[0])
      ensures Contents == if r.Success? then old(Contents)[1..] else old(Contents)
      ensures front == if r.Success? then (old(front) + 1) % capacity else old(front)
    {
      if size == 0 {
        return Failure(IndexError);
      }
      ghost var was := slots[..];
      RingPopFront(was, front, tail, Contents);
      var valor := slots[front];
      slots[front] := None;
      assert slots[..] == was[front := None];
      front := (front + 1) % capacity;
      size := size - 1;
      Contents := Contents[1..];
      r := Success(valor.value);
    }

    /** `__str__`: walk `size` slots from `front`, wrapping round, and collect
        them; an empty structure gives the empty list `[]`. The result is the
        logical contents, front to tail. */
    method Str() returns (elementos: seq<T>)
      requires Valid()
      ensures elementos == Contents
    {
      if size == 0 {
        return [];
      }
      elementos := [];
      var idx := front;
      var count := 0;
      while count < size
        invariant 0 <= count <= size
        invariant idx == Slot(count, front, capacity)
        invariant elementos == Contents[..count]
      {
        assert Offset(idx, front, capacity) == count;
        assert slots[..][idx] == slots[idx];
        elementos := elementos + [slots[idx].value];
        ModOnce(idx + 1, capacity);
        idx := (idx + 1) % capacity;
        count := count + 1;
      }
    }
  }
}
