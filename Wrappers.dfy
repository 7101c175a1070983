/** Optional values and results with a typed failure, standing in for Java's
    nullable references, `Optional` and checked/unchecked exceptions. */
module Wrappers {

  datatype Option<+T> = None | Some(value: T)

  datatype Result<+R, +E> = Success(value: R) | Failure(error: E)
}
