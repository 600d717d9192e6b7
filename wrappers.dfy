/** Small value wrappers shared by every module of the model. */
module Wrappers {

  /** A value that may be absent: a JSON field that is missing or null, a
      `localStorage` key that is not set, a row that `fetchone` did not find. */
  datatype Option<+T> = None | Some(value: T) {
    function GetOr(default: T): T {
      match this
      case Some(v) => v
      case None => default
    }
  }

  /** The outcome of a step the model does not see into: opening a database
      connection, running a statement on it, handing a message to the mail
      relay, a `fetch` that the browser performs.  `Raises` carries the text
      of the exception (`str(e)` in the Python handlers). */
  datatype Attempt = Succeeds | Raises(error: string)

  /** An HTTP reply: status code and a body of the handler's own shape. */
  datatype Response<+B> = Response(status: int, body: B)

  /** Python's truthiness of a JSON string field: `not x` is true for a
      missing key, a JSON null and the empty string. */
  predicate Present(field: Option<string>) {
    field.Some? && field.value != ""
  }
}
