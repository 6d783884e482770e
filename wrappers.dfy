/** Failure-compatible wrappers: a Java reference that may be null becomes an Option,
    and a call that may throw becomes a Result. */
module Wrappers {

  datatype Option<+T> = None | Some(value: T)

  datatype Result<+R, +E> = Ok(value: R) | Err(error: E)
}
