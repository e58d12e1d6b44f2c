/** Optional values and the success-or-HTTP-error outcome of a route handler. */
module Wrappers {

  /** A value that may be absent (JavaScript `undefined`/`null`). */
  datatype Option<+T> = None | Some(value: T) {
    function GetOr(default: T): T {
      match this
      case Some(v) => v
      case None => default
    }
  }

  /** An HTTP error reply: status code and the `message` field of the JSON body. */
  datatype HttpError = HttpError(code: nat, message: string)

  /** The outcome of a route handler: its JSON payload, or an error reply. */
  datatype Result<+T> = Ok(value: T) | Err(error: HttpError)
}
