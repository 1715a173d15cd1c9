/** The optional value used for partial decoders (parsing a URL or an HTML fragment back). */
module Wrappers {

  datatype Option<+T> = None | Some(value: T)
}
