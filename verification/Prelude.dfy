// Small shared datatypes.
module Prelude {

  datatype Option<+T> = None | Some(value: T)

  /** What a call that returns `(T, error)` in the source hands back. */
  datatype Result<+T> = Ok(value: T) | Err
}
