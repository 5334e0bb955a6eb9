/** Failure-carrying result types shared by the whole model. */
module Wrappers {

  /** A value that may be absent; `parse_song_line` answers with one of these. */
  datatype Option<+T> = None | Some(value: T)

  /** Either a value or the error that a Python exception would have raised. */
  datatype Result<+R, +E> = Success(value: R) | Failure(error: E)
}
