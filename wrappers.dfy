/** A value that may be absent: a missing DOM element, a null event payload, a failed parse. */
module Wrappers {
  datatype Option<+T> = None | Some(value: T)
}
