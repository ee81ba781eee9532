module Wrappers {
  datatype Option<+T> = None | Some(value: T)

  type byte = b: nat | b < 256
}
