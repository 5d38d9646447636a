/** Option and Result values, and the shape of an HTTP handler's answer. */
module Wrappers {

  /** A value that may be absent (JavaScript `undefined`/`null`). */
  datatype Option<+T> = None | Some(value: T) {
    function GetOr(default: T): T {
      match this
      case Some(v) => v
      case None => default
    }
  }

  /** The outcome of an operation that either yields a value or fails with a message. */
  datatype Result<+T> = Ok(value: T) | Err(message: string)

  /** What an Express handler sends: a JSON body with status 200, or an error status with
      the `{error, message}` body every handler of the core uses. */
  datatype Reply<+T> = Success(body: T) | Failure(code: int, error: string, message: string)
}
