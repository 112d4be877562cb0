/** The failure-carrying result types shared by the models. */
module Wrappers {
  datatype Option<+T> = None | Some(value: T)

  /** Usable with `:-`, which returns early as the source's `?` does. */
  datatype Result<+T, +E> = Ok(value: T) | Err(error: E) {
    predicate IsFailure() {
      Err?
    }

    function PropagateFailure<U>(): Result<U, E>
      requires Err?
    {
      Err(error)
    }

    function Extract(): T
      requires Ok?
    {
      value
    }
  }
}
