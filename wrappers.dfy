/** The optional value used where the game leaves a property `undefined` or `null`. */
module Wrappers {
  datatype Option<T> = None | Some(value: T)
}
