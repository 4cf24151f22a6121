/** Failure-carrying values shared by every module of the model: Go's
    `(value, error)` pairs and "comma ok" lookups become these. */
module Wrappers {

  datatype Option<T> = None | Some(value: T)

  /** A Go `(T, error)` return: the error is kept as its message text. */
  datatype Result<T> = Ok(value: T) | Err(error: string)

  /** A Go function returning only `error`: nil becomes `Pass`. */
  datatype Outcome = Pass | Fail(error: string)
}
