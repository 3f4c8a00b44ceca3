/** The alternative `TryFunctions` of the older tree (FunSharp/Try.cs): `Try(Func<Error>)`,
    `Try<T>(Func<T>, errorMessage)` and `Try(Action, errorMessage)`. The file declares a
    second class of the same name as FunSharp/TryFunctions.cs; each is modelled as its
    own module. */
module LegacyTry {
  import opened DotNet
  import opened LegacyError
  import LegacyRes
  import LegacyTryFunctions

  /** `Try(Func<Error> function)`: the function's `Error` (possibly null), or on a fault
      `new Error(exception: ex)`, whose message falls back to the exception's. */
  function TryError(call: Outcome<Nullable<Error>>): (e: Nullable<Error>)
    ensures call.Ok? ==> e == call.value
    ensures call.Throw? ==> e == NonNull(NewError(NonNull(call.exception)))
    ensures call.Throw? ==> e.value.message == NonNull(call.exception.message) && e.value.errorData.Null?
  {
    match call
    case Ok(err) => err
    case Throw(ex) => NonNull(NewError(NonNull(ex)))
  }

  /** `Try<T>(Func<T> function, errorMessage)`: the value lifted, or an Error carrying the
      exception and `errorMessage ?? ex.Message`. */
  function TryValue<T(==)>(k: TypeInfo<T>, call: Outcome<T>, errorMessage: Nullable<string>): (r: LegacyRes.Res<T>)
    ensures call.Ok? ==> r == LegacyRes.FromValue(k, call.value)
    ensures call.Throw? ==> LegacyRes.StateOf(r) == LegacyRes.ErrorState
    ensures call.Throw? ==> r.error == NonNull(Error(NonNull(call.exception),
                                                     NonNull(errorMessage.OrElse(call.exception.message)), Null))
  {
    match call
    case Ok(v) => LegacyRes.FromValue(k, v)
    case Throw(ex) => LegacyRes.FromError(k, NonNull(NewError(NonNull(ex), errorMessage)))
  }

  /** `Try(Action action, errorMessage)`, read as `Try(FunSharpUtils.ToFunc(action), …)`:
      a completed action gives Some holding a fresh (non-null) `Unit`. */
  function TryAction(action: Outcome<()>, errorMessage: Nullable<string>): (r: LegacyRes.Res<Nullable<Unit>>)
    ensures action.Ok? ==> LegacyRes.StateOf(r) == LegacyRes.SomeState && r.value == NonNull(Unit)
    ensures action.Throw? ==> LegacyRes.StateOf(r) == LegacyRes.ErrorState
  {
    TryValue(UnitClassType, action.Map(_ => NonNull(Unit)), errorMessage)
  }

  /** Both classes named `TryFunctions` agree on a value-returning function when only a
      message is given, so the ambiguous `Try(() => function(val))` in `Res.Then` means the
      same whichever is chosen. */
  lemma TryValueAgrees<T>(k: TypeInfo<T>, call: Outcome<T>, errorMessage: Nullable<string>)
    ensures LegacyTryFunctions.Try(k, call, Null, errorMessage, Null) == Ok(TryValue(k, call, errorMessage))
  {
  }

  /** `Res.Fail` on Error is `Try(Func<Error>)` around "run the handler, return the error". */
  lemma {:induction false} FailIsTryError<T>(k: TypeInfo<T>, r: LegacyRes.Res<T>, handler: Nullable<Error> -> Outcome<()>)
    requires LegacyRes.IsError(r)
    ensures LegacyRes.Fail(k, r, handler).result == LegacyRes.FromError(k, TryError(handler(r.error).Map(_ => r.error)))
    ensures LegacyRes.Fail(k, r, handler).calls == [r.error]
  {
    match handler(r.error)
    case Ok(_) =>
    case Throw(ex) => assert handler(r.error).Map(_ => r.error) == Throw(ex);
  }
}
