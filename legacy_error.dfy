/** The older tree's `Error` (FunSharp/Error.cs). It is a class, so "no error" is a null
    reference (`Nullable<Error>` in the models that hold one), and its message falls back
    to the exception's message. The public setters are never called in the library, so
    the model treats an `Error` as a value. */
module LegacyError {
  import opened DotNet

  datatype Error = Error(exception: Nullable<Exception>, message: Nullable<string>, errorData: Nullable<Payload>)

  /** `new Error(exception = null, message = null, errorData = null)`: the message is
      `message ?? exception?.Message`. */
  function NewError(exception: Nullable<Exception> := Null, message: Nullable<string> := Null,
                    errorData: Nullable<Payload> := Null): (e: Error)
    ensures e.exception == exception && e.errorData == errorData
    ensures message.NonNull? ==> e.message == message
    ensures message.Null? && exception.NonNull? ==> e.message == NonNull(exception.value.message)
    ensures e.message.Null? <==> message.Null? && exception.Null?
  {
    var fallback := match exception
      case NonNull(ex) => NonNull(ex.message)
      case Null => Null;
    Error(exception, if message.NonNull? then message else fallback, errorData)
  }

  /** The library's tests: an error built from an exception carries its message; one built
      from a message alone has neither exception nor payload. */
  lemma ErrorScenarios(text: string)
    ensures NewError(NonNull(Exception(Raised(0), text))).message == NonNull(text)
    ensures NewError(message := NonNull(text)).exception.Null?
    ensures NewError(message := NonNull(text)).errorData.Null?
  {
  }
}
