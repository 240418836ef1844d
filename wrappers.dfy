/** The optional value used wherever the program returns a Rust `Option`. */
module Wrappers {

  datatype Option<+T> = None | Some(value: T)
}
