/** An optional value, standing for a reference that may be `null`. */
module Wrappers {

  datatype Option<+T> = None | Some(value: T)
}
