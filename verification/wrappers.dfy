/** Failure-carrying result types shared by the whole model. */
module Wrappers {

  /** An optional value: `None` stands for "no value" (Go's nil or a failed decode). */
  datatype Option<+T> = None | Some(value: T)

  /** The `(value, error)` pair a Go function returns, with exactly one side present. */
  datatype Result<+T, +E> = Ok(value: T) | Err(error: E)

  /** The `error` a Go function returns when it has no other result: nil or not. */
  datatype Outcome<+E> = Pass | Fail(error: E)
}
