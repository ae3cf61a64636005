/** The two results a function of the program can have when it may produce nothing. */
module Wrappers {

  datatype Option<+T> = None | Some(value: T)
}
