/** Failure-compatible wrappers used to model the source's "empty mapping"
    sentinels (Option) and the exceptions it lets escape (Result). */
module Wrappers {

  datatype Option<+T> = None | Some(value: T)

  datatype Result<+R, +E> = Success(value: R) | Failure(error: E)
}
