/** Error returns of the game's constructors, and Go's nil-or-slice distinction. */
module Wrappers {

  /** A value that may be absent: `None` stands for a Go nil slice. */
  datatype Option<+T> = None | Some(value: T)

  /** A value or the message of the error returned in its place. */
  datatype Result<+T> = Ok(value: T) | Err(message: string)
}
