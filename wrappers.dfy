/** Option and Result, used for the source's `None` returns and raised errors. */
module Wrappers {

  datatype Option<+T> = None | Some(value: T)

  datatype Result<+R, +E> = Success(value: R) | Failure(error: E)

  /** `not o` for an optional string: missing or empty. */
  predicate Falsy(o: Option<string>) { o.None? || o.value == "" }
}
