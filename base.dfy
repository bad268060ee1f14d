/** Option and Result, used wherever the source answers with undefined, null or a thrown error. */
module Base {

  datatype Option<+T> = None | Some(value: T)

  /** Err carries the name of the exception the source would throw. */
  datatype Result<+T> = Ok(value: T) | Err(error: string)
  {
    predicate IsFailure() {
      Err?
    }

    function PropagateFailure<U>(): Result<U>
      requires Err?
    {
      Err(error)
    }

    function Extract(): T
      requires Ok?
    {
      value
    }
  }

  /** The exception JavaScript throws when a property of undefined or null is read. */
  const TypeError := "TypeError"
}
