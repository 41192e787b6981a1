/** A value that may be absent: Java's `null`, TypeScript's `undefined`. */
module Wrappers {

  datatype Option<+T> = None | Some(value: T)
}
