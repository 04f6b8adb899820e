/** A possibly-null Java reference, as a value. */
module Wrappers {

  datatype Option<+T> = None | Some(value: T)

}
