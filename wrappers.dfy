/** Option and Result, used for the absent values and the caught exceptions of the program. */
module Wrappers {

  datatype Option<+T> = None | Some(value: T)

  /** `Ok` is a value the program got back; `Err` carries the text of an exception it caught. */
  datatype Result<+T> = Ok(value: T) | Err(error: string)
}
