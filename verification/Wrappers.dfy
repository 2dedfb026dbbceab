/** Results of operations that the C++ code ends with an exception. */
module Wrappers {
  datatype Error = InvalidArgument | InternalError | OutOfMemory

  datatype Result<+T> = Ok(value: T) | Err(error: Error)

  datatype Option<+T> = None | Some(value: T)
}
