/** Failure-carrying wrappers used in place of the source's `Option` and
    its `unwrap()` panics. */
module Wrappers {

  datatype Option<+T> = None | Some(value: T)

  datatype Result<+R, +E> = Success(value: R) | Failure(error: E)
}
