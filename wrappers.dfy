/** The optional value used wherever the source produces `null` or `NaN`. */
module Wrappers {

  datatype Option<+T> = None | Some(value: T)

}
