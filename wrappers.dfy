/** The usual optional value, used by the parsers that invert the encoders. */
module Wrappers {
  datatype Option<+T> = None | Some(value: T)
}
