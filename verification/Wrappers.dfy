// Result types shared by the models of partial operations.
module Wrappers {
  datatype Option<+T> = None | Some(value: T)

  // A C++ operation either returns or throws.
  datatype Result<+T, +E> = Success(value: T) | Failure(error: E)
}
