/** The "value or absent" result the source expresses as `T | undefined`. */
module Wrappers {

  datatype Option<+T> = None | Some(value: T)
}
