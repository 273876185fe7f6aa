/** Python values and exceptions shared by the modelled modules. */
module PythonModel {

  /** Python's `None` next to a present value; array slots that hold `None`
      (or an unset ctypes slot) are `None` here. */
  datatype Option<+T> = None | Some(value: T)

  /** The built-in exceptions that the modelled code raises. */
  datatype PyError =
    | OverflowError
    | IndexError
    | ValueError
    | StopIteration
    | ZeroDivisionError
    | NameError
    | UnboundLocalError

  /** A call that returns a value or raises. */
  datatype Result<+T> = Success(value: T) | Failure(error: PyError)

  /** A call that returns nothing or raises. */
  datatype Outcome = Pass | Fail(error: PyError)

  /** Python's floor division `a // b`. Dafny's `/` is Euclidean, which
      agrees with floor division only for a positive divisor. */
  function FloorDiv(a: int, b: int): (q: int)
    requires b != 0
    ensures b > 0 ==> q * b <= a < q * b + b
    ensures b < 0 ==> q * b + b < a <= q * b
  {
    if b > 0 then a / b else (-a) / (-b)
  }
}
