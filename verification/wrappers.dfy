/** The optional-value datatype used for "no match" and "not a prompt" answers. */
module Wrappers {

  datatype Option<+T> = None | Some(value: T)
}
