/** Shared vocabulary: optional values, handler replies, document ids and file URLs. */
module Common {

  /** A value that may be absent (an unset body field, a findOne that matched nothing). */
  datatype Option<+T> = None | Some(value: T)

  /** What an HTTP handler answers: a status code with a payload, or a status code with the
      flat error message the handlers put in `{ message }`. */
  datatype Reply<+T> = Ok(code: int, value: T) | Fail(code: int, message: string)

  /** Document ids (MongoDB ObjectIds), drawn from one counter. */
  type Id = nat

  /** The storage URL the upload middleware leaves in `req.file.path`; it is never empty. */
  type Url = s: string | s != "" witness "u"

  /** The TypeError message `req.file.path` raises when no file came with the request; the
      handlers' catch blocks answer it with status 500. */
  const NoFileError: string := "Cannot read properties of undefined (reading 'path')"
}
