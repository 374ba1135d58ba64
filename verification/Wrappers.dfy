/** The option type the other modules share: a result, or a refusal. */
module Wrappers {
  datatype Option<+T> = None | Some(value: T)
}
