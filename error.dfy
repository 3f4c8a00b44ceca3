/** The current tree's `Error` (src/FunSharp/FunSharp/Error.cs): an immutable record of
    a message, the exception that caused it and an optional payload. */
module ErrorRecord {
  import opened DotNet

  /** A readonly struct with three get-only properties; any of them may be null.
      As a datatype it has no way to change after construction. */
  datatype Error = Error(message: Nullable<string>, exception: Nullable<Exception>, errorData: Nullable<Payload>)

  /** `default(Error)`: the struct with all three fields null. */
  const NoError: Error := Error(Null, Null, Null)

  /** `new Error(message, ex = null, errorData = null)`. */
  function NewError(message: Nullable<string>, ex: Nullable<Exception> := Null,
                    errorData: Nullable<Payload> := Null): (e: Error)
    // the message is kept as given: no fallback to the exception's message
    ensures e.message == message
    ensures e.exception == ex && e.errorData == errorData
    // three null arguments give exactly the default struct
    ensures e == NoError <==> message.Null? && ex.Null? && errorData.Null?
  {
    Error(message, ex, errorData)
  }

  /** Omitted arguments are null, and a null message stays null even when an
      exception with a message is supplied. */
  lemma NoMessageFallback(message: Nullable<string>, ex: Exception)
    ensures NewError(message).exception.Null? && NewError(message).errorData.Null?
    ensures NewError(Null, NonNull(ex)).message == Null
  {
  }
}
