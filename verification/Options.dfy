/** Values that may be missing and calls that may fail. */
module Options {
  datatype Option<+T> = None | Some(value: T)

  datatype Result<+T> = Ok(value: T) | Err
}
