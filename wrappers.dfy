/** Option, standing in for the nullable references of the transfer manager
    (an optional listener, a missing error entry). */
module Wrappers {

  datatype Option<+T> = None | Some(value: T)
}
