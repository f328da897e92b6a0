/** The optional value used for absent request parameters and for a lookup miss. */
module Wrappers {

  datatype Option<+T> = None | Some(value: T)
}
