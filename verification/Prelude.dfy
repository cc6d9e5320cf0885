/** Small wrappers shared by the component models. */
module Prelude {

  datatype Option<+T> = None | Some(value: T)

  /** An operation's value, or the fact that it reported an error. */
  datatype Result<+T> = Ok(value: T) | Err
}
