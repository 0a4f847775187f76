/** Failure-compatible result types shared by the puzzle models. */
module Wrappers {
  /** A value that may be absent, as Rust's `Option`. */
  datatype Option<T> = None | Some(value: T)
}
