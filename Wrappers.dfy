/** Option stands for a Java reference that may be null; Result for a value or a thrown/failed outcome. */
module Wrappers {

  datatype Option<+T> = None | Some(value: T)

  datatype Result<+R, +E> = Success(value: R) | Failure(error: E)
}
