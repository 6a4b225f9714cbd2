/** Values shared by every tool model: optional values and the outcome of a
    step that Python would end by raising an exception. */
module Common {

  /** A value that may be absent, such as a key missing from a dict. */
  datatype Option<+T> = None | Some(value: T) {
    /** `dict.get(key, default)` once the lookup has been made. */
    function GetOr(default: T): T {
      match this
      case Some(v) => v
      case None => default
    }
  }

  /** The Python exceptions the modelled code can raise past its own body. */
  datatype PyError = KeyError(key: string) | ValueError(message: string)

  /** Either the value a Python function returns or the exception it raises. */
  datatype Result<+T> = Ok(value: T) | Raised(error: PyError)

  /** An outbound call (HTTP request plus JSON decoding) whose details are
      not modelled: either the decoded data or the text of the exception it
      raised, `str(e)`. */
  datatype Fetched<+T> = Failed(reason: string) | Got(data: T)
}
