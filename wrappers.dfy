/** Small failure-compatible wrapper shared by the other modules. */
module Wrappers {

  /** A value that may be absent: Python's None, C's NULL, Java's and JavaScript's null,
      Rust's Option. */
  datatype Option<+T> = None | Some(value: T)
}
