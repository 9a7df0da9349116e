/** Optional values, shared by the roster and server modules. */
module Wrappers {

  /** A value that may be absent: JavaScript's `undefined` on the Dafny side. */
  datatype Option<+T> = None | Some(value: T)
}
