/** Outcome wrappers shared by every model in the project. */
module Results {

  datatype Option<+T> = None | Some(value: T)

  /** A fallible result; `:-` propagates the error like Rust's `?`. */
  datatype Result<+T, +E> = Ok(value: T) | Err(error: E) {
    predicate IsFailure() {
      Err?
    }

    function PropagateFailure<U>(): Result<U, E>
      requires Err?
    {
      Err(error)
    }

    function Extract(): T
      requires Ok?
    {
      value
    }
  }
}
