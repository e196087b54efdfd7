/** Failure-carrying values shared by every module: the Go code returns a
    value together with an `error`, which becomes `Result`, or just an
    `error`, which becomes `Option<Error>`. */
module Wrappers {

  datatype Option<+T> = None | Some(value: T)

  /** A Go `error`: every error in the model is identified by its message. */
  datatype Error = Error(message: string)

  datatype Result<+T> = Ok(value: T) | Err(error: Error)

  /** `strings.HasPrefix`. */
  predicate HasPrefix(s: string, prefix: string)
  {
    prefix <= s
  }
}
