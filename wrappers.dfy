/** The optional value the controller uses where the browser code has `null` or a missing element. */
module Wrappers {

  datatype Option<+T> = None | Some(value: T)
}
