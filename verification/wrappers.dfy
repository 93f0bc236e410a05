/** The optional value used wherever the page's JavaScript may see `undefined`. */
module Wrappers {

  datatype Option<+T> = None | Some(value: T)
}
