/** Small failure-carrying datatypes shared by the rest of the model. */
module Wrappers {

  /** A value that may be absent; stands for Python's `None`. */
  datatype Option<T> = None | Some(value: T)

  /** The outcome of a check that either passes or fails with a message. */
  datatype Outcome<E> = Pass | Fail(error: E)
}
