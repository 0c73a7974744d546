/** Option and Result: the error paths of the modelled code (exceptions,
    exit statuses, missing keys) are values of these types. */
module Wrappers {

  datatype Option<+T> = None | Some(value: T)

  /** An exception raised part-way through is an `Err` that the `:-`
      operator passes on unchanged. */
  datatype Result<+T, +E> = Ok(value: T) | Err(error: E)
  {
    predicate IsFailure() {
      Err?
    }

    function PropagateFailure<U>(): Result<U, E>
      requires Err?
    {
      Err(error)
    }

    function Extract(): T
      requires Ok?
    {
      value
    }
  }
}
