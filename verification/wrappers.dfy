/** The optional-value wrapper used for the parsers and for the report an event may produce. */
module Wrappers {

  datatype Option<+T> = None | Some(value: T)

}
