/** Shared result types. */
module Common {
  datatype Option<+T> = None | Some(value: T)

  /** A value, or the error the source would throw; `:-` passes the error on. */
  datatype Result<+T, +E> = Ok(value: T) | Err(error: E) {
    predicate IsFailure() { Err? }

    function PropagateFailure<U>(): Result<U, E>
      requires Err?
    {
      Err(error)
    }

    function Extract(): T
      requires Ok?
    {
      value
    }
  }
}
