/** The synchronous `Try` overloads of the older `TryFunctions` (FunSharp/TryFunctions.cs):
    try/catch around one call, with an optional error mapper `errFunction`, a custom
    message and a payload. */
module LegacyTryFunctions {
  import opened DotNet
  import opened LegacyError
  import LegacyRes

  /** The error the catch block builds: the exception, `errorMessage ?? ex.Message`, and
      the payload. */
  function CaughtError(ex: Exception, errorMessage: Nullable<string>, errorData: Nullable<Payload>): (e: Error)
    ensures e.exception == NonNull(ex) && e.errorData == errorData
    ensures e.message == NonNull(errorMessage.OrElse(ex.message))
  {
    NewError(NonNull(ex), NonNull(errorMessage.OrElse(ex.message)), errorData)
  }

  /** After the catch: the error itself, or what `errFunction` makes of it. A fault raised
      by `errFunction` is outside the `try` and escapes. */
  function MapError<T>(k: TypeInfo<T>, error: Error, errFunction: Nullable<Error -> Outcome<Nullable<Error>>>)
    : (o: Outcome<LegacyRes.Res<T>>)
    ensures errFunction.Null? ==> o == Ok(LegacyRes.FromError(k, NonNull(error)))
    ensures errFunction.NonNull? ==> o == errFunction.value(error).Map(e => LegacyRes.FromError(k, e))
  {
    match errFunction
    case Null => Ok(LegacyRes.FromError(k, NonNull(error)))
    case NonNull(mapper) => mapper(error).Map(e => LegacyRes.FromError(k, e))
  }

  /** `Try<T>(Func<T> function, errFunction, errorMessage, errorData)`, where `call` is what
      the single call of `function` produced. */
  function Try<T(==)>(k: TypeInfo<T>, call: Outcome<T>, errFunction: Nullable<Error -> Outcome<Nullable<Error>>>,
                      errorMessage: Nullable<string>, errorData: Nullable<Payload>): (o: Outcome<LegacyRes.Res<T>>)
    ensures call.Ok? ==> o == Ok(LegacyRes.FromValue(k, call.value))
    ensures call.Throw? ==> o == MapError(k, CaughtError(call.exception, errorMessage, errorData), errFunction)
    ensures o.Throw? ==> call.Throw? && errFunction.NonNull?
    ensures o.Ok? && call.Throw? ==> LegacyRes.StateOf(o.value) == LegacyRes.ErrorState
  {
    match call
    case Ok(v) => Ok(LegacyRes.FromValue(k, v))
    case Throw(ex) => MapError(k, CaughtError(ex, errorMessage, errorData), errFunction)
  }

  /** `Try<T>(Func<Res<T>> function, errFunction, errorMessage, errorData)`: a returned
      `Res` comes back unchanged. */
  function TryRes<T>(k: TypeInfo<T>, call: Outcome<LegacyRes.Res<T>>, errFunction: Nullable<Error -> Outcome<Nullable<Error>>>,
                     errorMessage: Nullable<string>, errorData: Nullable<Payload>): (o: Outcome<LegacyRes.Res<T>>)
    ensures call.Ok? ==> o == call
    ensures call.Throw? ==> o == MapError(k, CaughtError(call.exception, errorMessage, errorData), errFunction)
    ensures o.Ok? && call.Throw? ==> LegacyRes.StateOf(o.value) == LegacyRes.ErrorState
  {
    match call
    case Ok(r) => Ok(r)
    case Throw(ex) => MapError(k, CaughtError(ex, errorMessage, errorData), errFunction)
  }

  /** Without an `errFunction` the fault is always caught, and the error carries the
      exception, the custom message if any, and the payload. */
  lemma NoMapperNeverThrows<T>(k: TypeInfo<T>, ex: Exception, errorMessage: Nullable<string>, errorData: Nullable<Payload>)
    ensures Try(k, Throw(ex), Null, errorMessage, errorData).Ok?
    ensures Try(k, Throw(ex), Null, errorMessage, errorData).value.error
            == NonNull(Error(NonNull(ex), NonNull(errorMessage.OrElse(ex.message)), errorData))
  {
  }

  /** `Res.Then(Func<TValue, T>)` on Some is exactly this `Try` with no custom arguments. */
  lemma ResThenIsTry<T, U>(kU: TypeInfo<U>, r: LegacyRes.Res<T>, f: T -> Outcome<U>)
    requires LegacyRes.StateOf(r) == LegacyRes.SomeState
    ensures Try(kU, f(r.value), Null, Null, Null) == Ok(LegacyRes.Then(kU, r, f))
  {
  }

  /** The library's test: a fault with a custom message and no mapper gives an Error that
      is neither Some nor None, and whose message `Match` returns. */
  lemma CustomMessageScenario(thrown: Exception, message: string)
    ensures var r := Try(IntType, Throw(thrown), Null, NonNull(message), Null).value;
            !r.isSome && !r.isNone && LegacyRes.IsError(r) &&
            LegacyRes.Match(r, _ => NonNull("Ok"), (e: Nullable<Error>) => if e.NonNull? then e.value.message else Null, Null) == Ok(NonNull(message))
  {
  }
}
