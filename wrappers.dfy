/** The optional value used wherever the page script tests for a missing element
    or a missing attribute. */
module Wrappers {
  datatype Option<+T> = None | Some(value: T)
}
