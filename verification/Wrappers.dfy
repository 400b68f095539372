/** Types that several modules share. */
module Wrappers {

  datatype Option<T> = None | Some(value: T)

  datatype Result<T> = Ok(value: T) | Err(message: string)

  type pos = n: nat | n >= 1 witness 1
}
