/** Small failure-carrying datatypes shared by the other modules. */
module Wrappers {

  /** A value that may be absent; also stands for Go's `error`, where `None` is `nil`. */
  datatype Option<+T> = None | Some(value: T)

  /** Either a successfully built value or the error that stopped it. */
  datatype Result<+T, +E> = Ok(value: T) | Err(error: E)
}
