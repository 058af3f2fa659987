/** Failure-carrying wrappers shared by the whole model. */
module Options {

  /** A value that may be missing: JavaScript's `undefined`/`null`. */
  datatype Option<+T> = None | Some(value: T)

  /** Either a value or an error: JavaScript's `throw` made explicit. */
  datatype Result<+R, +E> = Ok(value: R) | Err(error: E)
}
