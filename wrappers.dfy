/** An optional value: the model's stand-in for a nullable pointer or a failed read. */
module Wrappers {

  datatype Option<+T> = None | Some(value: T)
}
