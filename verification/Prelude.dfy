/** Datatypes shared by every module of the model. */
module Prelude {

  /** Microseconds, the resolution of the database clock. */
  const SECOND: int := 1_000_000

  /** An optional column or field. */
  datatype Option<+T> = None | Some(value: T)

  /** A call that returns a value or throws a named error. */
  datatype Result<+T> = Ok(value: T) | Err(error: string)
}
