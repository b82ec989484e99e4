/** Helper types shared by the other modules. */
module Wrappers {

  /** A value that may be absent: the result of an oracle that can fail. */
  datatype Option<+T> = None | Some(value: T)
}
