/** Option and Result wrappers shared by every module, and the kinds of .NET
    exception the modelled code can raise or catch. A C# nullable value
    (`string?`, `bool?`, a nullable reference) is an `Option`; a call that can
    throw returns a `Result`. */
module Common {

  /** A nullable value: `None` is C#'s `null`. */
  datatype Option<+T> = None | Some(value: T) {

    /** C#'s null-coalescing `x ?? fallback`. */
    function GetOr(fallback: T): T {
      match this
      case Some(v) => v
      case None => fallback
    }
  }

  /** The exceptions that decide a branch somewhere in the modelled code. */
  datatype Exception =
    | HttpRequest(status: int)  // EnsureSuccessStatusCode on a non-success status
    | Transport                 // HttpClient could not complete the call at all
    | JsonError                 // JsonException from parsing or binding
    | InvalidOperation          // JsonElement.TryGetProperty on a non-object
    | NullReference             // a member access on a null element
    | IndexOutOfRange           // `s[0]` on an empty string

  /** The outcome of a call that may throw. */
  datatype Result<+T> = Ok(value: T) | Fail(error: Exception)
}
