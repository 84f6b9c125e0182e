/** Option and Result, used for the optional fields of a task and for the
    exceptions the service layer raises. */
module Wrappers {

  datatype Option<+T> = None | Some(value: T)

  datatype Result<+T, +E> = Ok(value: T) | Err(error: E)
}
