/** Option and Result values used wherever the source returns `null` or throws. */
module Wrappers {
  datatype Option<T> = None | Some(value: T)

  /** `Err` carries the message of the error the source throws. */
  datatype Result<T> = Ok(value: T) | Err(msg: string)
}
