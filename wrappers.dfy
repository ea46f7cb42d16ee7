/** The optional value the decoders return instead of raising on malformed input. */
module Wrappers {

  datatype Option<+T> = None | Some(value: T)

}
