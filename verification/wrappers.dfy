/** The optional value used for "no data" and "no converter" results. */
module Wrappers {

  datatype Option<+T> = None | Some(value: T)

}
