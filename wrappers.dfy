/** The usual optional value, for a key that may be absent or a path not built yet. */
module Wrappers {
  datatype Option<+T> = None | Some(value: T)
}
