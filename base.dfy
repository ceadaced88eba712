/** Failure-carrying results shared by every module of the model. */
module Base {

  /** A value that may be absent (Python's `None`). */
  datatype Option<+T> = None | Some(value: T)

  /** The Python exception classes the core raises. */
  datatype PyError =
    | ValueError(message: string)
    | TypeError(message: string)
    | Exception(message: string)

  /** The outcome of a call that either returns a value or raises. */
  datatype Result<+T> = Ok(value: T) | Err(error: PyError)

  /** Concatenation regrouped, for the steps the solver does not take
      unaided. */
  lemma Regroup<T>(a: seq<T>, b: seq<T>, c: seq<T>)
    ensures a + (b + c) == (a + b) + c
  {
  }
}
