/** Option and Result, used for the nullable references and the exceptions of the modelled code. */
module Wrappers {

  /** A C# reference that may be null: `None` stands for null. */
  datatype Option<+T> = None | Some(value: T)

  /** The outcome of a computation that may throw: `Err` carries the exception. */
  datatype Result<+R, +E> = Ok(value: R) | Err(error: E)
}
