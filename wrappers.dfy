/** The optional value used wherever the modelled code returns an `Option`. */
module Wrappers {

  datatype Option<+T> = None | Some(value: T)
}
