/** The optional and fallible results shared by every component. */
module Wrappers {
  datatype Option<+T> = None | Some(value: T)

  datatype Result<+T> = Ok(value: T) | Err

  type uint32 = n: int | 0 <= n < 0x1_0000_0000
  type byte = n: int | 0 <= n < 256
}
