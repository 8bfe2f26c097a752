/** Optional values and success/failure results shared by the modules. */
module Common {

  /** A value that may be absent: SQL NULL, an omitted optional argument, `rows[0]` of an empty result. */
  datatype Option<+T> = None | Some(value: T)

  /** The outcome of a statement: its value, or the error the database raised. */
  datatype Result<+T, +E> = Ok(value: T) | Err(error: E)
}
