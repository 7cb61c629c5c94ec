/** Small failure-compatible result types shared by the other modules. */
module Wrappers {

  /** An optional value; `None` also stands for a Rust panic where noted. */
  datatype Option<+T> = None | Some(value: T)

  /** A value or an error message. */
  datatype Result<+T> = Ok(value: T) | Err(message: string)
}
