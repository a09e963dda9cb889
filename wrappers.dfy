/** The optional value used wherever a foreign step of the crawler can fail. */
module Wrappers {

  datatype Option<+T> = None | Some(value: T)
}
