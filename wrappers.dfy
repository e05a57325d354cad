/** The optional value used wherever the editor code tests a reference against null. */
module Wrappers {

  datatype Option<+T> = None | Some(value: T)
}
