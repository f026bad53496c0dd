/** Option type used for nullable results and for the "maximum double" sentinel. */
module Wrappers {
  datatype Option<+T> = None | Some(value: T)
}
