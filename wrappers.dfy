/** Small failure-carrying datatypes shared by the whole model. */
module Wrappers {

  /** Python's `None` versus a present value. */
  datatype Option<+T> = None | Some(value: T) {
    function GetOr(default: T): T {
      match this
      case Some(v) => v
      case None => default
    }
  }

  /** A Python call that either returns a value or raises an exception the caller does not catch. */
  datatype Outcome<+T> = Returned(value: T) | Raised
}

/** HTTP replies: a status code with a JSON body. */
module Http {

  /** The error bodies the routes produce: `{"errors": [...]}` or `{"error": "..."}`. */
  datatype ErrorBody = Errors(messages: seq<string>) | Error(message: string)

  /** A reply: a success status with a body of type T, or an error status with an error body. */
  datatype Reply<+T> = Ok(status: int, body: T) | Fail(status: int, error: ErrorBody)

  /** The body the application's catch-all error handler sends for an unexpected exception. */
  function Unexpected<T>(): Reply<T> {
    Fail(500, Error("An unexpected error occurred. Please contact support."))
  }
}
