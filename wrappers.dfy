/** Absent values and failures, the way the backend's Python expresses them with
    None and raised HTTP errors. */
module Wrappers {

  datatype Option<+T> = None | Some(value: T)

  datatype Result<+T, +E> = Ok(value: T) | Err(error: E)

  /** An HTTP error raised by a FastAPI route: status code and detail text. */
  datatype HttpError = HttpError(code: int, detail: string)
}
