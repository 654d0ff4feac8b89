/** Value wrappers used across the model: Rust's `Option` and `Result`, and an
    `Outcome` that records whether a Rust call returns normally or aborts with a
    panic (an out-of-bounds slice or a checked integer overflow). */
module Wrappers {

  datatype Option<+T> = None | Some(value: T)

  datatype Result<+T, +E> = Ok(value: T) | Err(error: E)

  /** What a call does at run time: returns `value`, or panics. */
  datatype Outcome<+T> = Returns(value: T) | Panics
}
