/** Option and Result values used by the model: a table cell that may be
    null, and a load step that may stop with an error. */
module Wrappers {

  /** A cell value that pandas may hold as NaN (None) or as a real value. */
  datatype Option<+T> = None | Some(value: T)

  /** The outcome of a step that either yields a value or stops with an error. */
  datatype Result<+R, +E> = Success(value: R) | Failure(error: E)
}
