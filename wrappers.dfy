/** The optional value used where the Kotlin code has a nullable type or a -1 sentinel. */
module Wrappers {
  datatype Option<+T> = None | Some(value: T)
}
