/** Results of operations that can fail, and the errors the application raises. */
module Outcome {

  /** An `HTTPException(status_code, detail)` raised by an endpoint, or a Python
      `ValueError` raised by a conversion (a setting that is not a boolean, a
      date string `strptime` refuses, an organizer it cannot split), or an
      `OverflowError` from date arithmetic that leaves the years 1 to 9999, an
      `AttributeError` from a call to a method a class does not define, or an
      `IntegrityError` the database raises when a commit breaks a column
      constraint. The last three reach the client as a 500 response. */
  datatype Error =
    | Http(status: int, detail: string)
    | ValueError(reason: string)
    | OverflowError(reason: string)
    | AttributeError(reason: string)
    | IntegrityError(reason: string)

  datatype Result<T> = Ok(value: T) | Err(error: Error) {
    predicate IsFailure() { Err? }
    function PropagateFailure<U>(): Result<U>
      requires Err?
    {
      Err(error)
    }
    function Extract(): T
      requires Ok?
    {
      value
    }
  }

  datatype Option<T> = None | Some(value: T)
}
