/** An optional value: a nullable database column or a library result that may be None. */
module Wrappers {

  datatype Option<+T> = None | Some(value: T)
}
