/** The optional value standing for a possibly-null Java reference. */
module Wrappers {

  /** `None` stands for Java's `null`; `Some(v)` for a present reference `v`. */
  datatype Option<+T> = None | Some(value: T)
}
