/** Turning a caught value into a message (client/lib/utils/error-handling.ts). */
module ErrorHandling {

  /** What a `catch` clause can receive: an `Error` with its message, a string, or any other value. */
  datatype Thrown = ErrorInstance(message: string) | StringValue(text: string) | OtherValue

  /** `parseApiError`. */
  function ParseApiError(error: Thrown): string {
    match error
    case ErrorInstance(m) => m
    case StringValue(s) => s
    case OtherValue => "An unexpected error occurred"
  }

  /** `handleApiError`: logs the value, then answers as `parseApiError` does. */
  function HandleApiError(error: Thrown): string {
    ParseApiError(error)
  }

  /** Errors and strings give their own text; anything else the fixed fallback. */
  lemma MessageOf(error: Thrown)
    ensures error.ErrorInstance? ==> HandleApiError(error) == error.message
    ensures error.StringValue? ==> HandleApiError(error) == error.text
    ensures error.OtherValue? ==> HandleApiError(error) == "An unexpected error occurred"
  {
  }
}
