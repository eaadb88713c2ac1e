/** Failure-carrying return values shared by the modules of this model. */
module Wrappers {

  /** A value that may be absent (`T | null` in the source). */
  datatype Option<+T> = None | Some(value: T)

  /** A value or an error: the source's thrown exceptions, rejected promises and
      neverthrow `ok`/`err` results. */
  datatype Result<+T, +E> = Ok(value: T) | Err(error: E)
}
