/** The optional-value wrapper shared by the other modules. */
module Wrappers {

  /** A value that may be absent: a failed read, a JSON.parse that throws, a store that cannot be opened. */
  datatype Option<+T> = None | Some(value: T)
}
