/** The result types the models share. */
module Wrappers {

  /** An optional value: Rust's `Option`, or a Python value that may be `None`. Where a Python
      function raises, `None` stands for the exception and `:-` passes it on. */
  datatype Option<+T> = None | Some(value: T) {
    predicate IsFailure() {
      None?
    }

    function PropagateFailure<U>(): Option<U>
      requires None?
    {
      None
    }

    function Extract(): T
      requires Some?
    {
      value
    }
  }

  /** A value, or the error the source raises in its place. */
  datatype Result<+T, +E> = Success(value: T) | Failure(error: E)
}
