/** Options and results shared by every module. */
module Prelude {

  datatype Option<+T> = None | Some(value: T)

  /** The tables whose keys a write can violate. */
  datatype Table = Operations | Receipts | Resolutions | Archive

  /** Everything that makes a transaction return an error and roll back. */
  datatype Error =
    | InvalidArgument(reason: string)
    | FailedPrecondition(reason: string)
    | ResponseTooLarge
    | RowNotFound
    | DuplicateKey(table: Table)
    | OutOfRange          // a BIGINT UNSIGNED column would overflow
    | DataTooLong         // a VARCHAR column would overflow
    | BadPercentEncoding  // url.PathUnescape failed
    | NoRandomness        // crypto/rand failed

  /** A failure-compatible result, used with `:-`. */
  datatype Result<+T> = Ok(value: T) | Err(error: Error) {
    predicate IsFailure() { Err? }

    function PropagateFailure<U>(): Result<U>
      requires Err?
    {
      Err(error)
    }

    function Extract(): T
      requires Ok?
    {
      value
    }
  }

  /** The result of a check that carries no value. */
  datatype Check = Pass | Fail(error: Error)

  function Max(a: int, b: int): int {
    if a < b then b else a
  }

  function Min(a: int, b: int): int {
    if a < b then a else b
  }
}
