/** The optional value used for every "may fail" result of the model. */
module Wrappers {

  datatype Option<+T> = None | Some(value: T)

}
