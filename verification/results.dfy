/** Optional values and success/failure values, used for the form fields the
    request may omit and for the outcome of the multipart parse stage. */
module Results {

  /** A value that may be absent, as a form field that was never sent. */
  datatype Option<+T> = None | Some(value: T)

  /** Either a parsed value or the error the parser reported. */
  datatype Result<+R, +E> = Ok(value: R) | Err(error: E)
}
