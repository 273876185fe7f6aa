# Array-based sequences, recursion and iterators: a verified model

This project models, in Dafny, the core of a collection of data-structure
exercises written in Python (the laboratory arrays and chapters 2, 4 and 5 of
a textbook on data structures and algorithms in Python):

- three containers over a fixed low-level array:
  - `SimpleArray`, a bounded list that shifts its elements;
  - `CircularArray`, a bounded double-ended queue with wrap-around `front`
    and `tail` indices;
  - `DynamicArray`, a growable array that doubles its capacity when full;
- the classic sequence algorithms of the recursion and array chapters:
  in-place insertion sort, recursive binary search, in-place recursive
  reverse, `linear_sum`, `binary_sum`, `power`, `fast_power` and
  `good_fibonacci`;
- the iterators `SequenceIterator` and `Range`;
- the `Progression` family (counting, geometric and two Fibonacci variants);
- `CreditCard` and `PredatoryCreditCard`.

Each source file is one Dafny module, and `PythonModel` holds the shared
Python vocabulary: `Option` for `None`, the raised exceptions as `PyError`,
`Result`/`Outcome` for calls that return or raise, and floor division `//`.

Where the source updates an object in place, the model is a Dafny `class`.
Its fields are the Python fields, and the low-level list is an
`array<Option<T>>`. A ghost `Contents` sequence holds the logical contents,
and a `Valid()` invariant ties the fields to it. Every method states the new
`Contents` in terms of the old one, together with the exception it raises and
when. The in-place algorithms work on a Dafny `array`, each held to a pure
reference function on sequences (`Reversed`, `InsertionSorted`). Lemmas prove
what the source promises about those functions. The recursive functions are
Dafny functions. `linear_sum`, `binary_sum` and `good_fibonacci` are proved
equal to independent reference definitions: a sum over a sequence and the
Fibonacci numbers. `power` is itself taken as the reference for `x^n`, and
`fast_power` is proved equal to it; `binary_search` is proved to decide
membership in a sorted range.

The doc-comment of `insertion_sort` says "decreasing order", but the code
sorts into non-decreasing order; the model follows the code.

Integers are unbounded, as in Python. Dafny's `%` agrees with Python's for a
positive divisor, which is the only kind the source uses. Python's `//` is
written out as `FloorDiv`, because Dafny's `/` differs for negative divisors.

## Model

| member | source | states |
|---|---|---|
| PythonModel.FloorDiv | goodrich-book/ch02/iterator.py:39 | Python's `a // b`: the quotient rounded down, for either sign of the divisor |
| SimpleArrays.SimpleArray.constructor | laboratory/t01-Arrays/SimpleArray.py:2-5 | a new array has the given capacity, no elements and every slot `None` |
| SimpleArrays.SimpleArray.IsEmpty | laboratory/t01-Arrays/SimpleArray.py:7-8 | true exactly when the contents are empty |
| SimpleArrays.SimpleArray.IsFull | laboratory/t01-Arrays/SimpleArray.py:10-11 | true exactly when the number of elements equals the capacity |
| SimpleArrays.SimpleArray.PushBack | laboratory/t01-Arrays/SimpleArray.py:13-18 | `OverflowError` exactly when full, contents unchanged; otherwise the value is appended |
| SimpleArrays.SimpleArray.PushFront | laboratory/t01-Arrays/SimpleArray.py:20-27 | `OverflowError` exactly when full; otherwise the shift loop leaves the value prepended to the old contents |
| SimpleArrays.SimpleArray.PopBack | laboratory/t01-Arrays/SimpleArray.py:29-36 | `IndexError` exactly when empty; otherwise returns the last element and removes it, its slot becoming `None` |
| SimpleArrays.SimpleArray.PopFront | laboratory/t01-Arrays/SimpleArray.py:38-47 | `IndexError` exactly when empty; otherwise returns the first element and the rest shift one place left |
| SimpleArrays.SimpleArray.Insert | laboratory/t01-Arrays/SimpleArray.py:49-58 | `OverflowError` when full, checked first; `IndexError` when the position is outside `[0, size]`; otherwise the value is inserted at the position |
| SimpleArrays.SimpleArray.Remove | laboratory/t01-Arrays/SimpleArray.py:60-71 | `IndexError` when empty or the position is outside `[0, size)`; otherwise returns the element at the position and removes it |
| SimpleArrays.SimpleArray.ShiftRight | laboratory/t01-Arrays/SimpleArray.py:55-56 | slots after `position` up to `size` hold the old value of the slot before them; all other slots are unchanged |
| SimpleArrays.SimpleArray.ShiftLeft | laboratory/t01-Arrays/SimpleArray.py:67-68 | slots `position .. size-2` hold the old value of the slot after them; all other slots are unchanged |
| SimpleArrays.SimpleArray.Str | laboratory/t01-Arrays/SimpleArray.py:73-75 | the list `array[:size]` that `__str__` formats: the values of the first `size` slots, which are exactly the contents in order |
| SimpleArrays.EndsRoundTrip | laboratory/t01-Arrays/SimpleArray.py:13-71 | pushes at both ends and an insert fill an array of capacity 3 as `[y, z, x]`, a further push overflows, and `pop_front`, `remove(0)`, `pop_back` return `y`, `z`, `x` in that order and leave it empty |
| CircularArrays.RingPushBack | laboratory/t01-Arrays/CircularArray.py:12-14 | on the slot values: `(tail + 1) % capacity` is the slot after the last element, and storing there keeps the ring invariant with the value appended |
| CircularArrays.RingPopBack | laboratory/t01-Arrays/CircularArray.py:19-22 | on the slot values: the tail slot holds the last element, and clearing it and moving the tail to `(tail - 1 + capacity) % capacity` keeps the ring invariant without it |
| CircularArrays.RingPushFront | laboratory/t01-Arrays/CircularArray.py:28-32 | on the slot values: storing at `(front - 1 + capacity) % capacity` and moving the front there keeps the ring invariant with the value prepended, a first element also being the tail |
| CircularArrays.RingPopFront | laboratory/t01-Arrays/CircularArray.py:37-40 | on the slot values: the front slot holds the first element, and clearing it and moving the front to `(front + 1) % capacity` keeps the ring invariant without it |
| CircularArrays.CircularArray.constructor | laboratory/t01-Arrays/CircularArray.py:2-7 | a new ring is empty with `front = 0`, `tail = -1` and every slot `None` |
| CircularArrays.CircularArray.TailFollowsFront | laboratory/t01-Arrays/CircularArray.py:9-14 | the invariant kept between the indices: `(tail + 1) % capacity == (front + size) % capacity` |
| CircularArrays.CircularArray.PushBack | laboratory/t01-Arrays/CircularArray.py:9-14 | `OverflowError` exactly when full; otherwise `tail` becomes `(tail + 1) % capacity`, `front` is kept, and the value is appended |
| CircularArrays.CircularArray.PopBack | laboratory/t01-Arrays/CircularArray.py:16-23 | `IndexError` exactly when empty; otherwise returns the last element, clears its slot, and `tail` becomes `(tail - 1 + capacity) % capacity` (so `capacity - 1` when a ring with `front == 0` empties), `front` kept |
| CircularArrays.CircularArray.PushFront | laboratory/t01-Arrays/CircularArray.py:25-32 | `OverflowError` exactly when full; otherwise `front` becomes `(front - 1 + capacity) % capacity` and the value is prepended; `tail` is kept, except that a first element sets it to the new `front` |
| CircularArrays.CircularArray.PopFront | laboratory/t01-Arrays/CircularArray.py:34-41 | `IndexError` exactly when empty; otherwise returns the first element, clears its slot, and `front` becomes `(front + 1) % capacity`, `tail` kept |
| CircularArrays.CircularArray.Str | laboratory/t01-Arrays/CircularArray.py:43-52 | the walk of `size` slots from `front` collects exactly the logical contents, front to tail, and `[]` when empty |
| DynamicArrays.DynamicArray.constructor | goodrich-book/ch05/dynamicArray.py:6-10 | a new array has no elements and capacity 0 |
| DynamicArrays.DynamicArray.Length | goodrich-book/ch05/dynamicArray.py:12-14 | the number of elements, which never exceeds the capacity |
| DynamicArrays.DynamicArray.Get | goodrich-book/ch05/dynamicArray.py:16-20 | `IndexError` exactly when `k` is outside `[0, n)`; otherwise element `k` of the contents |
| DynamicArrays.DynamicArray.Resize | goodrich-book/ch05/dynamicArray.py:29-39 | for `c >= n`: a fresh array of capacity `c` holding the same contents in order |
| DynamicArrays.DynamicArray.Append | goodrich-book/ch05/dynamicArray.py:22-27 | as written: the capacity doubles exactly when full; `IndexError` with nothing added exactly when the capacity was 0; otherwise the object is appended |
| DynamicArrays.DynamicArray.AppendFixed | goodrich-book/ch05/dynamicArray.py:22-27 | with growth `max(1, 2 * capacity)` the object is always appended |
| DynamicArrays.DynamicArray.Insert | goodrich-book/ch05/dynamicArray.py:41-50 | as written, for `0 <= k <= n`: the capacity doubles when full; `UnboundLocalError` with the contents unchanged exactly when `k == n`; otherwise the value is inserted at `k` |
| DynamicArrays.DynamicArray.InsertFixed | goodrich-book/ch05/dynamicArray.py:41-50 | without line 48: `IndexError` outside `[0, n]`; otherwise the value is inserted at `k`, with `k == n` an append |
| DynamicArrays.DynamicArray.ShiftAndStore | goodrich-book/ch05/dynamicArray.py:46-49 | the shift loop and the store: slots before `k` unchanged, the value at `k`, and slots `k+1 .. n` holding the old slots `k .. n-1` |
| DynamicArrays.FreshAppendFails | goodrich-book/ch05/dynamicArray.py:9 | the first `append` to a new array raises `IndexError` |
| DynamicArrays.AppendAllAsWritten | goodrich-book/ch05/dynamicArray.py:22-27 | a new array stays empty however many values are appended |
| DynamicArrays.FreshInsertFails | goodrich-book/ch05/dynamicArray.py:46-48 | `insert(0, v)` on a new array raises `UnboundLocalError` |
| DynamicArrays.AppendAllFixed | goodrich-book/ch05/dynamicArray.py:16-27 | with the corrected growth, appending a sequence and reading back every index returns that sequence |
| InsertionSort.InsertAt | goodrich-book/ch05/insertionSort.py:5-10 | one outer iteration: the prefix `A[..k+1]` becomes the sorted prefix with `A[k]` inserted after every key not greater than its own; the rest is untouched |
| InsertionSort.InsertionSort | goodrich-book/ch05/insertionSort.py:1-10 | the array becomes the insertion-sorted reference of its old contents |
| InsertionSort.InsertionSortedIsSorted | goodrich-book/ch05/insertionSort.py:1-10 | the result is sorted non-decreasing by key |
| InsertionSort.InsertionSortedPermutes | goodrich-book/ch05/insertionSort.py:4-10 | the result is a permutation of the input, so its multiset and length are unchanged |
| InsertionSort.InsertionSortedIsStable | goodrich-book/ch05/insertionSort.py:7 | elements with equal keys keep their relative order |
| InsertionSort.InsertSorted | goodrich-book/ch05/insertionSort.py:7-10 | inserting into a sorted prefix gives a sorted prefix one longer |
| InsertionSort.InsertPermutes | goodrich-book/ch05/insertionSort.py:7-10 | inserting adds exactly the inserted element |
| InsertionSort.InsertStable | goodrich-book/ch05/insertionSort.py:7 | inserting puts the element after every element of equal key |
| BinarySearch.BinarySearch | goodrich-book/ch04/binary_search.py:1-13 | the recursion itself: `False` for an empty interval, otherwise compare with `data[(low + high) // 2]` and recur on one half; its meaning is proved by `BinarySearchSound` and `BinarySearchCorrect` |
| BinarySearch.BinarySearchSound | goodrich-book/ch04/binary_search.py:1-13 | a `True` answer means the target occurs in `data[low..high]`; so an empty interval (`low > high`) gives `False` |
| BinarySearch.BinarySearchFindsAt | goodrich-book/ch04/binary_search.py:6-13 | on sorted data, a target at an index of `[low, high]` is found: the half discarded by each comparison cannot hold it |
| BinarySearch.BinarySearchFinds | goodrich-book/ch04/binary_search.py:1-13 | on sorted data, a target in `data[low..high]` is found |
| BinarySearch.BinarySearchCorrect | goodrich-book/ch04/binary_search.py:1-13 | on sorted data: `True` if and only if the target occurs in `data[low..high]` inclusive |
| BinarySearch.BinarySearchWhole | goodrich-book/ch04/binary_search.py:1-13 | on sorted data, searching `[0, len - 1]` finds exactly the members of `data` |
| Reverse.Reverse | goodrich-book/ch04/reverse.py:1-6 | for in-range `start <= stop`, the slice `[start, stop)` is reversed and the rest untouched; a slice of fewer than two elements changes nothing, whatever its bounds; the multiset is preserved |
| Reverse.ShortSliceUnchanged | goodrich-book/ch04/reverse.py:3 | a slice of length 0 or 1 is left as it is |
| Reverse.ReverseSlicePermutes | goodrich-book/ch04/reverse.py:4 | reversing a slice only moves elements: the multiset is unchanged |
| Reverse.ReversedAt | goodrich-book/ch04/reverse.py:1-6 | the reversal holds `s[len - 1 - k]` at index `k` |
| Reverse.ReversedTwice | goodrich-book/ch04/reverse.py:1-6 | reversing twice gives back the sequence |
| LinearSum.LinearSum | goodrich-book/ch04/linear_sum.py:1-6 | the recursion itself: 0 for `n == 0`, otherwise `linear_sum(S, n - 1) + S[n - 1]`; its meaning is proved by `LinearSumIsSum` |
| LinearSum.LinearSumIsSum | goodrich-book/ch04/linear_sum.py:1-6 | `linear_sum(S, n)` is the sum of the first `n` elements |
| LinearSum.LinearSumWhole | goodrich-book/ch04/linear_sum.py:1-6 | `linear_sum(S, len(S))` is the sum of all of `S` |
| BinarySum.BinarySum | goodrich-book/ch04-Recursion/binary_sum.py:1-9 | the recursion itself: 0 for an empty slice, the element for one, otherwise the sums of the two halves split at `(start + stop) // 2`; its meaning is proved by `BinarySumIsSum` |
| BinarySum.BinarySumIsSum | goodrich-book/ch04-Recursion/binary_sum.py:1-9 | `binary_sum(S, start, stop)` is the sum of `S[start:stop]`, and 0 when `start >= stop` |
| BinarySum.BinarySumIsLinearSum | goodrich-book/ch04-Recursion/binary_sum.py:1-9 | `binary_sum(S, 0, n)` equals `linear_sum(S, n)` |
| Summation.SumConcat | goodrich-book/ch04-Recursion/binary_sum.py:9 | the sum of a concatenation is the sum of the sums, which is what splitting at `mid` relies on |
| Power.Power | goodrich_book_official/ch04-Recursion/power.py:1-6 | `power`: 1 for `n == 0`, otherwise `x * power(x, n - 1)`; the model's definition of `x^n`, whose exponent rule `PowerAdd` proves |
| Power.FastPower | goodrich_book_official/ch04-Recursion/power.py:8-17 | `fast_power`: square the result for `n // 2`, times `x` for odd `n`; proved equal to `power` by `FastPowerIsPower` |
| Power.FastPowerIsPower | goodrich_book_official/ch04-Recursion/power.py:8-17 | `fast_power(x, n)` equals `power(x, n)`, that is `x^n` |
| Power.PowerAdd | goodrich_book_official/ch04-Recursion/power.py:1-6 | exponents add: `x^(a+b) == x^a * x^b` |
| GoodFib.GoodFibonacci | goodrich_book_official/ch04-Recursion/good_fib.py:1-8 | the recursion itself: `(n, 0)` for `n <= 1`, otherwise `(a + b, a)` from the pair `(a, b)` of `n - 1`; its meaning is proved by `GoodFibonacciIsFib` |
| GoodFib.GoodFibonacciIsFib | goodrich_book_official/ch04-Recursion/good_fib.py:1-8 | for `n >= 0` the pair is `(F(n), F(n-1))`, with `F(-1)` read as 0 |
| GoodFib.GoodFibonacciRecurrence | goodrich_book_official/ch04-Recursion/good_fib.py:4-8 | for `n >= 2` the first component is the sum of the first components for `n-1` and `n-2` |
| Iterators.SequenceIterator.constructor | goodrich-book/ch02/iterator.py:4-7 | a new iterator keeps the sequence and starts `_k` at its length |
| Iterators.SequenceIterator.Length | goodrich-book/ch02/iterator.py:21-22 | the length of the sequence, which no call changes |
| Iterators.SequenceIterator.Next | goodrich-book/ch02/iterator.py:9-15 | `_k` goes down by one on every call; the element at the new `_k` while it is above -1, else `StopIteration` |
| Iterators.Drain | goodrich-book/ch02/iterator.py:7-15 | `len` calls give the sequence reversed, the `j`-th giving `seq[len - j]`, and one more call raises `StopIteration` |
| Iterators.ExhaustedStaysExhausted | goodrich-book/ch02/iterator.py:11-15 | after `len` calls, every further call raises `StopIteration` |
| Iterators.MakeRange | goodrich-book/ch02/iterator.py:27-43 | as written: `ValueError` exactly for step 0; `Range(n)` means start 0, stop `n`; `ZeroDivisionError` exactly when the stop is 0; no other error; otherwise the length is never negative |
| Iterators.Length | goodrich-book/ch02/iterator.py:45-46 | the length stored by the constructor |
| Iterators.GetItem | goodrich-book/ch02/iterator.py:48-56 | `IndexError` exactly when `k` is outside `[-length, length)`; a negative `k` counts from the end |
| Iterators.GetItemTerms | goodrich-book/ch02/iterator.py:48-56 | index `k` in range gives `start + k * step`, and index `k - length` gives the same |
| Iterators.IntendedLengthCounts | goodrich-book/ch02/iterator.py:24-39 | with the length computed by `step`, index `k >= 0` is below the length exactly when `start + k * step` comes before `stop`, for both signs of `step` |
| Iterators.MakeRangeFixed | goodrich-book/ch02/iterator.py:27-43 | the corrected constructor: `ValueError` exactly for step 0; otherwise the length computed by `step` |
| Iterators.MakeRangeFixedEnumerates | goodrich-book/ch02/iterator.py:24-56 | the corrected `Range` yields exactly the terms `start + k * step` that come before `stop` |
| Iterators.RangeLengthDividesByStop | goodrich-book/ch02/iterator.py:39 | `Range(2, 10)` has length 0 as written and 8 when corrected |
| Iterators.RangeOfNAsWritten | goodrich-book/ch02/iterator.py:35-39 | `Range(5)` has length 1 and `Range(0)` raises `ZeroDivisionError` as written; when corrected the lengths are 5 and 0 |
| Progressions.Progression.constructor | goodrich-book/ch02-OOP/progression.py:6-8 | the current value is the start |
| Progressions.Progression.Advance | goodrich-book/ch02-OOP/progression.py:10-17 | the current value goes up by one |
| Progressions.Progression.Next | goodrich-book/ch02-OOP/progression.py:10-26 | `StopIteration` while the current value is `None`; otherwise the `k`-th call returns `start + k` |
| Progressions.GeometricProgression.constructor | goodrich-book/ch02-OOP/progression.py:62-68 | keeps the base and the start; the current value is the start |
| Progressions.GeometricProgression.Advance | goodrich-book/ch02-OOP/progression.py:70-72 | the current value is multiplied by the base |
| Progressions.GeometricProgression.Next | goodrich-book/ch02-OOP/progression.py:59-72 | the `k`-th call returns `start * base^k` |
| Progressions.NextPower | goodrich-book/ch02-OOP/progression.py:70-72 | multiplying term `k` by the base gives term `k + 1` |
| Progressions.FibonacciProgression.constructor | goodrich-book/ch02-OOP/progression.py:77-83 | the current value is `first` and the previous one the fictitious `second - first` |
| Progressions.FibonacciProgression.Advance | goodrich-book/ch02-OOP/progression.py:85-87 | the previous value becomes the current one and the current one the sum of the two |
| Progressions.FibonacciProgression.Next | goodrich-book/ch02-OOP/progression.py:74-87 | the `k`-th call returns term `k` of the sequence `first, second, …` in which each term is the sum of the two before it |
| Progressions.MyFibonacciProgression.constructor | goodrich-book/ch02-OOP/progression.py:38-40 | the current and next values are the two arguments |
| Progressions.MyFibonacciProgression.Advance | goodrich-book/ch02-OOP/progression.py:41-42 | the next value becomes current and the next one the sum of the two |
| Progressions.MyFibonacciProgression.Next | goodrich-book/ch02-OOP/progression.py:36-42 | the `k`-th call returns the same term `k`, kept as the pair (current, next) |
| Progressions.FibPairTerms | goodrich-book/ch02-OOP/progression.py:82-87 | after `k` advances, `_current` is term `k` and `_prev` is term `k - 1`, or the fictitious `second - first` for `k == 0` |
| Progressions.FibTermIsFib | goodrich-book/ch02-OOP/progression.py:77-87 | from the defaults 0 and 1 the terms are the Fibonacci numbers |
| Progressions.CountingTerms | goodrich-book/ch02-OOP/progression.py:6-26 | the first `n` values of `Progression(start)` are `start + j`, or all `StopIteration` for a `None` start |
| Progressions.GeometricTerms | goodrich-book/ch02-OOP/progression.py:59-72 | the first `n` values are `start * base^j` |
| Progressions.FibonacciTerms | goodrich-book/ch02-OOP/progression.py:74-87 | the first `n` values of `FibonacciProgression(first, second)` are the reference terms |
| Progressions.MyFibonacciTerms | goodrich-book/ch02-OOP/progression.py:36-42 | the first `n` values of `MyFibonacciProgression(first, second)` are the same reference terms |
| Progressions.SameFibonacciTerms | goodrich-book/ch02-OOP/progression.py:36-42 | the two Fibonacci classes started from the same values agree term for term |
| CreditCards.CreditCard.constructor | goodrich-book/ch02-OOP/credit_card.py:4-18 | keeps the four arguments; the balance is 0 |
| CreditCards.CreditCard.GetCustomer | goodrich-book/ch02-OOP/credit_card.py:20-22 | the customer given to the constructor |
| CreditCards.CreditCard.GetBank | goodrich-book/ch02-OOP/credit_card.py:24-26 | the bank given to the constructor |
| CreditCards.CreditCard.GetAccount | goodrich-book/ch02-OOP/credit_card.py:28-30 | the account given to the constructor |
| CreditCards.CreditCard.GetLimit | goodrich-book/ch02-OOP/credit_card.py:32-34 | the limit given to the constructor |
| CreditCards.CreditCard.GetBalance | goodrich-book/ch02-OOP/credit_card.py:36-38 | the current balance |
| CreditCards.CreditCard.Charge | goodrich-book/ch02-OOP/credit_card.py:40-49 | denied with the balance unchanged exactly when `price + balance > limit`; otherwise accepted, the price added, and the balance within the limit |
| CreditCards.CreditCard.MakePayment | goodrich-book/ch02-OOP/credit_card.py:51-53 | subtracts the amount with no check |
| CreditCards.ChargeRunWithinLimit | goodrich-book/ch02-OOP/credit_card.py:40-49 | a card that starts within its limit stays within it under any run of charges |
| CreditCards.NewCardRun | goodrich-book/ch02-OOP/credit_card.py:4-49 | the getters give back the constructor arguments and a zero balance; a run of charges gives the reference balance, within a limit that is not negative |
| CreditCards.PredatoryCreditCard.constructor | goodrich-book/ch02-OOP/credit_card.py:59-79 | keeps the arguments; the balance and the payments so far are 0 |
| CreditCards.PredatoryCreditCard.Charge | goodrich-book/ch02-OOP/credit_card.py:81-95 | as written: every call increments the call count; within ten calls it is a plain charge with 5 added on denial; from the eleventh call on `NameError`, with the balance unchanged |
| CreditCards.PredatoryCreditCard.ChargeFixed | goodrich-book/ch02-OOP/credit_card.py:81-95 | with the surcharge 1 from the eleventh call on, every call returns, charging the price plus the surcharge or adding 5 on denial |
| CreditCards.PredatoryCreditCard.MakePayment | goodrich-book/ch02-OOP/credit_card.py:97-100 | the balance goes down and the running total of payments goes up by the same amount |
| CreditCards.Surcharge | goodrich-book/ch02-OOP/credit_card.py:89-92 | 0 for the first ten calls and 1 afterwards |
| CreditCards.PredatoryRunBound | goodrich-book/ch02-OOP/credit_card.py:89-95 | penalties can take the balance past the limit by at most 5 per charge |
| CreditCards.PredatoryFirstTen | goodrich-book/ch02-OOP/credit_card.py:81-95 | up to ten charges to a new card give the reference balance, count every call, and stay within 5 per charge of a limit that is not negative |
| CreditCards.DeniedChargePassesLimit | goodrich-book/ch02-OOP/credit_card.py:93-94 | a denied charge adds 5 even past the limit: with limit 0, charging 1 is denied and leaves a balance of 5 |
| CreditCards.EleventhChargeFails | goodrich-book/ch02-OOP/credit_card.py:72 | as written, the eleventh charge raises `NameError` whatever its price |
| CreditCards.EleventhChargeFixed | goodrich-book/ch02-OOP/credit_card.py:92 | with the surcharge, an eleventh charge that fits costs the price plus 1 |

## Left out

- `DynamicArray.remove` (goodrich-book/ch05/dynamicArray.py:52-62) is not modelled. Its shift loop has step -1 and never runs, and its `raise` sits inside the `for`, so it does not do what its doc-comment says.
- `PredatoryCreditCard.process_month` is not modelled. It works in floating point (`pow(1 + apr, 1/12)`, a percentage of `.05`). `apr` and `min_payment_percent` are kept as `real` constants only.
- Printing is left out: the `__main__` demonstrations, `print_progression` and the `timeit` calls.
- The `__str__` methods are modelled up to the list they format. The conversion of that list to text is left out.
- `__iter__` is left out: it returns the object itself.
- The tree, Euler tour, linked stack and queue, priority queue and Kruskal files are not part of this model. They do contain a union-find structure (`Partition` in goodrich-book/ch14-Graph Algorithms/MST_Kruskal.py:1-40, with path compression and union by size) and a binary heap (`HeapPriorityQueue` in goodrich-book/ch09-Priority Queues/priorityQueue.py:99-177). Neither is well-formed Python as written: the nested `Position` class of `Partition` mixes indentation levels (lines 4-15), and the heap's methods stand at module level from line 102 on, with `add` calling `_uphead` (line 162), which is defined nowhere (the routine is `_upheap`, line 121). So they have no definite behaviour to model.
- Python values are modelled as follows:
  - numbers are Dafny `int`;
  - the elements stored in the containers are of a type parameter;
  - the Python `>` of insertion sort is an order on an integer key of each element;
  - evaluating an unset `ctypes` slot cannot happen in the modelled operations.
- `DynamicArrays.DynamicArray.constructor` and `DynamicArrays.DynamicArray.Resize` read `_make_array(c)` as allocating a fresh low-level array of `c` empty slots, which is what the method is for. As written, line 39 of goodrich-book/ch05/dynamicArray.py multiplies `c` by a `ctypes.py_object` instance rather than by the type (the `ctypes` idiom is `(c * ctypes.py_object)()`; the book's version in goodrich_book_official/ch05-Array-Based Sequences/dynamicArray.py uses no `ctypes` array at all), and that product raises `TypeError`. So `DynamicArray()` as written already fails in its constructor (line 10); the model does not capture that `TypeError`.
- `SimpleArrays.SimpleArray.constructor` and `CircularArrays.CircularArray.constructor` take a `nat` capacity. Python accepts a negative capacity: the list is then empty, `is_full` never holds, and the first push raises `IndexError`, not `OverflowError`. Negative capacities are not modelled.
- Default arguments are not modelled: every caller passes each argument explicitly. The defaults in the source are:
  - `Progression(start=0)`;
  - `GeometricProgression(base=2, start=1)`;
  - `FibonacciProgression(first=0, second=1)`;
  - `Range(start, stop=None, step=1)`;
  - `PredatoryCreditCard(…, call_count=0, min_payment_percent=.05, late_fee=5)`.
- `Iterators.SequenceIterator.constructor`: the iterator keeps the sequence as a value. Changes made to the underlying list through another reference while iterating are not modelled.
- `Progressions.GeometricProgression.constructor`, `Progressions.FibonacciProgression.constructor` and `Progressions.MyFibonacciProgression.constructor` take integer start values. A `None` start (which `FibonacciProgression` would reject with `TypeError` at `second - first`) is modelled only for the base `Progression`.
- `LinearSum.LinearSum` requires `n <= len(S)`. Python raises `IndexError` for a larger `n` and recurses without end for a negative one.
- `BinarySum.BinarySum` requires a non-empty slice to lie within `S`. Python would raise `IndexError` for an index at or past `len(S)` or below `-len(S)`. A negative index from `-len(S)` up wraps round instead: `binary_sum(S, -1, 1)` returns `S[-1] + S[0]`. These wrapping slices are not modelled.
- `BinarySearch.BinarySearch` requires `0 <= low` and `high < len(data)`. The demonstration's call with `high = len(data)` raises `IndexError` only when the search reaches that index. A negative midpoint from `-len(data)` up would index from the end in Python; such searches are not modelled.
- `Power.Power` and `Power.FastPower` take `n >= 0`. For a negative `n` the Python recursion does not end.
- `Reverse.Reverse` accepts any bounds when the slice has fewer than two elements (`start >= stop - 1`), since `S` is then not touched. For a longer slice it requires `0 <= start` and `stop <= len(S)`. Python raises `IndexError` for such a slice when `stop - 1 >= len(S)` or `start < -len(S)`. A negative `start` from `-len(S)` up wraps round instead: `reverse(S, -2, 2)` on a 5-element list swaps `S[3]` with `S[1]`, then `S[4]` with `S[0]`, with no error. These wrapping and raising calls are not modelled.

## Findings

| source | as written | input that shows it | evidently intended | confidence | as-written member | corrected member |
|---|---|---|---|---|---|---|
| goodrich-book/ch05/dynamicArray.py:25 | a full array is resized to `2 * _capacity`, and the initial capacity is 0 (line 9) | `DynamicArray().append(x)`, with `_make_array` returning `c` slots as intended (line 39 as written raises `TypeError` first): the resize keeps capacity 0, so `_A[0] = x` raises `IndexError`; every later `append` fails the same way | grow to `max(1, 2 * _capacity)`, as the book's own version does | high (not executed) | DynamicArrays.FreshAppendFails | DynamicArrays.AppendAllFixed |
| goodrich-book/ch05/dynamicArray.py:48 | after the shift loop, `self._A[j] == self._A[j-1]` reads the loop variable `j` | `insert(n, v)`, e.g. `insert(0, v)` on a new array, with `_make_array` returning `c` slots as intended: the loop is empty, `j` is unbound and `UnboundLocalError` is raised | no line 48: the comparison has no effect when the loop runs, so `insert(n, v)` appends | high (not executed) | DynamicArrays.FreshInsertFails | DynamicArrays.DynamicArray.InsertFixed |
| goodrich-book/ch02/iterator.py:39 | the length is `max(0, (stop - start + step - 1) // stop)` | `Range(2, 10)` has length 0, `Range(5)` has length 1 and `Range(0)` raises `ZeroDivisionError` | divide by `step`, with `+ step + 1` for a negative step: the number of terms before `stop` | high (not executed) | Iterators.RangeLengthDividesByStop | Iterators.MakeRangeFixedEnumerates |
| goodrich-book/ch02-OOP/credit_card.py:92 | the eleventh and later charges add `SURCHARE`, which is a local of `__init__` (line 72) | any eleventh `charge`, for example on a card created with `call_count = 10`, raises `NameError` | a surcharge of 1 on every charge after the tenth | high (not executed) | CreditCards.EleventhChargeFails | CreditCards.EleventhChargeFixed |
