/** Option and outcome datatypes shared by the whole model. */
module Wrappers {

  /** A value that may be absent: a missing cell, an unreadable file, an empty archive. */
  datatype Option<+T> = None | Some(value: T)

  /** The result of an operation that raises in the source when a required column is missing. */
  datatype Outcome<+T> = Ok(value: T) | MissingColumn
}
