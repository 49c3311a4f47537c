/** Small result type shared by the rest of the model. */
module Wrappers {

  /** A translation that either yields a value or has no counterpart. */
  datatype Option<+T> = None | Some(value: T)
}
