/** Option and Result, the two failure-carrying datatypes the model uses.
    An `Err` carries the text `str(e)` of the Python exception it stands for. */
module Wrappers {

  datatype Option<+T> = None | Some(value: T)

  datatype Result<+T> = Ok(value: T) | Err(error: string)
}
