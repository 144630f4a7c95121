/** Option and Result, the error-or-value shapes used throughout the model. */
module Wrappers {

  datatype Option<+T> = None | Some(value: T)

  datatype Result<+T, +E> = Ok(value: T) | Err(error: E)

  /** An error reported by a library routine the model does not look inside
      (archive/zip, the mbox scanner, io, time.Parse); only its text matters. */
  datatype Cause = Cause(message: string)
}
