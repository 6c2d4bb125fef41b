// Optional values and the error codes of the file system.
module Wrappers {
  datatype Option<+T> = None | Some(value: T)

  datatype Error = NoEnt | NoSpc | Corrupt | FBig | Inval

  datatype Result<+T> = Ok(value: T) | Err(error: Error)
}
