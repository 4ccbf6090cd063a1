/** Small value types and sequence helpers shared by the transmitter and the receiver. */
module Common {

  /** A value that may be absent; `None` plays the role of Python's `None`. */
  datatype Option<T> = None | Some(value: T)

  /** Either a value or the error that the script would raise instead. */
  datatype Result<T, E> = Success(value: T) | Failure(error: E)

  /** Python's built-in `min` on two integers. */
  function Min(a: int, b: int): int
  {
    if a <= b then a else b
  }

  function Abs(x: real): real
  {
    if x < 0.0 then -x else x
  }

  /** Exact sum of a sequence of reals (NumPy's `sum` without rounding). */
  function Sum(xs: seq<real>): real
  {
    if xs == [] then 0.0 else Sum(xs[..|xs| - 1]) + xs[|xs| - 1]
  }
}
