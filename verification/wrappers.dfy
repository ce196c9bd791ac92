/** Failure-carrying datatypes shared by every module of the gateway model. */
module Wrappers {

  /** A Go value that may be nil. */
  datatype Option<+T> = None | Some(value: T)

  /** A Go `(value, error)` pair in which exactly one side is meaningful;
      errors are carried as the text `fmt.Sprint(err)` would print. */
  datatype Result<+T> = Ok(value: T) | Err(error: string)
}
