/** The older tree's `Res<TValue>` (FunSharp/Res.cs): a struct with an `Error` reference,
    a value and three flags fixed by its constructors. `Then` calls `TryFunctions.Try`,
    which in turn returns a `Res`; Dafny modules cannot import each other in a cycle, so
    the catch `Then` relies on is written out here and modules LegacyTryFunctions and
    LegacyTry prove that it is the one their `Try` performs. */
module LegacyRes {
  import opened DotNet
  import opened LegacyError

  datatype Res<T> = Res(error: Nullable<Error>, value: T, isSuccess: bool, isSome: bool, isNone: bool)

  datatype State = ErrorState | SomeState | NoneState

  /** `IsError => !IsSuccess`. */
  predicate IsError<T>(r: Res<T>) {
    !r.isSuccess
  }

  /** The flag combinations the constructors produce: a success is Some or None, an
      error neither. */
  predicate Valid<T>(r: Res<T>) {
    (r.isSuccess ==> r.isSome != r.isNone) && (!r.isSuccess ==> !r.isSome && !r.isNone)
  }

  function StateOf<T>(r: Res<T>): State {
    if !r.isSuccess then ErrorState else if r.isSome then SomeState else NoneState
  }

  /** `default(Res<T>)`: all flags false, so it is an Error holding a null `Error`. */
  function Default<T>(k: TypeInfo<T>): (r: Res<T>)
    ensures Valid(r) && StateOf(r) == ErrorState && r.error.Null?
  {
    Res(Null, k.dflt, false, false, false)
  }

  /** `new Res(value)`, the implicit conversion from a value and `Res.Of(value)`: None
      exactly when the value is null, or is the default and not a `Unit`. */
  function FromValue<T(==)>(k: TypeInfo<T>, v: T): (r: Res<T>)
    ensures Valid(r) && r.isSuccess && r.value == v && r.error.Null?
    ensures r.isNone <==> v == k.dflt && !k.isUnit(v)
    ensures StateOf(r) == SomeState <==> v != k.dflt || k.isUnit(v)
  {
    var none := v == k.dflt && !k.isUnit(v);
    Res(Null, v, true, !none, none)
  }

  /** `new Res(Error)` and the implicit conversion from an `Error`, which may be null. */
  function FromError<T>(k: TypeInfo<T>, e: Nullable<Error>): (r: Res<T>)
    ensures Valid(r) && StateOf(r) == ErrorState && r.error == e && r.value == k.dflt
  {
    Res(e, k.dflt, false, false, false)
  }

  /** `new Res(None)` and the implicit conversion from `None`. */
  function FromNone<T>(k: TypeInfo<T>): (r: Res<T>)
    ensures Valid(r) && StateOf(r) == NoneState && r.value == k.dflt && r.error.Null?
  {
    Res(Null, k.dflt, true, false, true)
  }

  /** The implicit conversion from an `Exception`: an Error whose message is the
      exception's. */
  function FromException<T>(k: TypeInfo<T>, ex: Exception): (r: Res<T>)
    ensures StateOf(r) == ErrorState
    ensures r.error == NonNull(NewError(NonNull(ex), NonNull(ex.message)))
    ensures r.error.value.message == NonNull(ex.message) && r.error.value.exception == NonNull(ex)
  {
    FromError(k, NonNull(NewError(NonNull(ex), NonNull(ex.message))))
  }

  /** In every state the constructors produce, exactly one of Error, Some and None holds. */
  lemma ExactlyOneState<T>(r: Res<T>)
    requires Valid(r)
    ensures IsError(r) <==> !r.isSome && !r.isNone
    ensures r.isSome <==> StateOf(r) == SomeState
    ensures r.isNone <==> StateOf(r) == NoneState
  {
  }

  /** `GetValueOrElse(fallback)`: the fallback only on Error; on None it is the stored
      value, which is `default(TValue)`, not the fallback. */
  function GetValueOrElse<T>(r: Res<T>, fallback: T): (o: T)
    ensures IsError(r) ==> o == fallback
    ensures !IsError(r) ==> o == r.value
  {
    if IsError(r) then fallback else r.value
  }

  /** On None, `GetValueOrElse` ignores its fallback. */
  lemma GetValueOrElseOnNone<T>(k: TypeInfo<T>, fallback: T)
    ensures GetValueOrElse(FromNone(k), fallback) == k.dflt
  {
  }

  /** `Match(withValue, withError, noValue = null)`: error first, then Some, then the
      `noValue` handler; on None without a handler it throws `NotSupportedException`. */
  function Match<T, X>(r: Res<T>, withValue: T -> X, withError: Nullable<Error> -> X,
                       noValue: Nullable<() -> X>): (o: Outcome<X>)
    ensures IsError(r) ==> o == Ok(withError(r.error))
    ensures !IsError(r) && r.isSome ==> o == Ok(withValue(r.value))
    ensures !IsError(r) && !r.isSome && noValue.NonNull? ==> o == Ok(noValue.value())
    ensures o.Throw? <==> !IsError(r) && !r.isSome && noValue.Null?
    ensures o.Throw? ==> o.exception == NotSupportedFault
  {
    if IsError(r) then Ok(withError(r.error))
    else if r.isSome then Ok(withValue(r.value))
    else match noValue
      case NonNull(handler) => Ok(handler())
      case Null => Throw(NotSupportedFault)
  }

  /** What `TryFunctions.Try(() => function(val))` yields for one call of `function`,
      with no custom handler, message or payload: a value is lifted, a fault becomes an
      Error with the exception and its message. */
  function Caught<U(==)>(kU: TypeInfo<U>, call: Outcome<U>): (r: Res<U>)
    ensures call.Ok? ==> r == FromValue(kU, call.value)
    ensures call.Throw? ==> r == FromException(kU, call.exception)
  {
    match call
    case Ok(u) => FromValue(kU, u)
    case Throw(ex) => FromError(kU, NonNull(NewError(NonNull(ex), NonNull(ex.message))))
  }

  /** `Then(Func<TValue, T> function)`: Error passes its `Error` on, None gives None, and on
      Some the function runs under `Try`, so a fault becomes Error. */
  function Then<T, U(==)>(kU: TypeInfo<U>, r: Res<T>, f: T -> Outcome<U>): (o: Res<U>)
    ensures Valid(o)
    ensures StateOf(r) == ErrorState ==> o == FromError(kU, r.error)
    ensures StateOf(r) == NoneState ==> o == FromNone(kU)
    ensures StateOf(r) == SomeState && f(r.value).Ok? ==> o == FromValue(kU, f(r.value).value)
    ensures StateOf(r) == SomeState && f(r.value).Throw? ==> o == FromException(kU, f(r.value).exception)
    ensures StateOf(o) == ErrorState <==> StateOf(r) == ErrorState || (StateOf(r) == SomeState && f(r.value).Throw?)
  {
    if r.isSuccess then
      if r.isSome then Caught(kU, f(r.value)) else FromNone(kU)
    else FromError(kU, r.error)
  }

  /** `Then(Func<TValue, Res<T>> function)`: routes the same way, but the function is called
      outside any `Try`: its `Res` comes back unchanged and its fault escapes. */
  function ThenRes<T, U>(kU: TypeInfo<U>, r: Res<T>, f: T -> Outcome<Res<U>>): (o: Outcome<Res<U>>)
    ensures StateOf(r) == ErrorState ==> o == Ok(FromError(kU, r.error))
    ensures StateOf(r) == NoneState ==> o == Ok(FromNone(kU))
    ensures StateOf(r) == SomeState ==> o == f(r.value)
  {
    if r.isSuccess then
      if r.isSome then f(r.value) else Ok(FromNone(kU))
    else Ok(FromError(kU, r.error))
  }

  /** `Then(Action<TValue> action)`, read as `Then(FunSharpUtils.ToFunc(action))`: on Some
      the action runs once under `Try` and the result is Some holding a fresh `Unit`
      (a non-null reference), or Error if the action threw. */
  function ThenDo<T>(r: Res<T>, action: T -> Outcome<()>): (t: Traced<Res<Nullable<Unit>>, T>)
    ensures t.calls == (if StateOf(r) == SomeState then [r.value] else [])
    ensures StateOf(r) == SomeState && action(r.value).Ok? ==> StateOf(t.result) == SomeState
    ensures StateOf(r) == SomeState && action(r.value).Ok? ==> t.result.value == NonNull(Unit)
    ensures StateOf(r) == SomeState && action(r.value).Throw? ==>
              t.result == FromException(UnitClassType, action(r.value).exception)
    ensures StateOf(r) == ErrorState ==> t.result == FromError(UnitClassType, r.error)
    ensures StateOf(r) == NoneState ==> t.result == FromNone(UnitClassType)
  {
    Traced(Then(UnitClassType, r, x => action(x).Map(_ => NonNull(Unit))),
           if StateOf(r) == SomeState then [r.value] else [])
  }

  /** `Fail(Action<Error> function)`: on Error the handler runs once, with the error,
      inside `Try(Func<Error>)`; the result is the same error, or a new one built from the
      handler's fault. On success the result is rebuilt from `Value`. */
  function Fail<T(==)>(k: TypeInfo<T>, r: Res<T>, handler: Nullable<Error> -> Outcome<()>): (t: Traced<Res<T>, Nullable<Error>>)
    ensures t.calls == (if IsError(r) then [r.error] else [])
    ensures IsError(r) && handler(r.error).Ok? ==> t.result == FromError(k, r.error)
    ensures IsError(r) && handler(r.error).Throw? ==>
              t.result == FromError(k, NonNull(NewError(NonNull(handler(r.error).exception))))
    ensures !IsError(r) ==> t.result == FromValue(k, r.value)
  {
    if IsError(r) then
      var e := r.error;
      var kept := match handler(e)
        case Ok(_) => e
        case Throw(ex) => NonNull(NewError(NonNull(ex)));
      Traced(FromError(k, kept), [e])
    else Traced(FromValue(k, r.value), [])
  }

  /** `Fail` on a success keeps its state, as long as `default(T)` is not itself a `Unit`
      (a `Unit` class's default is null, which never is). An error raised by the handler
      carries the handler's exception message. */
  lemma FailKeepsState<T>(k: TypeInfo<T>, r: Res<T>, handler: Nullable<Error> -> Outcome<()>)
    requires Valid(r)
    requires !k.isUnit(k.dflt)
    requires r.isNone ==> r.value == k.dflt
    requires r.isSome ==> r.value != k.dflt || k.isUnit(r.value)
    ensures StateOf(Fail(k, r, handler).result) == StateOf(r)
    ensures IsError(r) && handler(r.error).Throw? ==>
              Fail(k, r, handler).result.error.value.message == NonNull(handler(r.error).exception.message)
  {
  }

  /** In particular `Fail` keeps the state of every value, `None` and error `Res` the
      constructors build. */
  lemma FailOnConstructed<T>(k: TypeInfo<T>, v: T, e: Nullable<Error>, handler: Nullable<Error> -> Outcome<()>)
    requires !k.isUnit(k.dflt)
    ensures StateOf(Fail(k, FromValue(k, v), handler).result) == StateOf(FromValue(k, v))
    ensures StateOf(Fail(k, FromNone(k), handler).result) == NoneState
    ensures StateOf(Fail(k, FromError(k, e), handler).result) == ErrorState
  {
    FailKeepsState(k, FromValue(k, v), handler);
    FailKeepsState(k, FromNone(k), handler);
  }

  /** The library's tests: `Res.Of(256).Then(n => n.ToString())` is Some; a chain of steps
      that do not throw and give non-default values ends in Some with the last value. */
  lemma ThenScenario<U>(kU: TypeInfo<U>, f: int -> Outcome<U>)
    requires f(256).Ok? && f(256).value != kU.dflt
    ensures StateOf(Then(kU, FromValue(IntType, 256), f)) == SomeState
    ensures Match(Then(kU, FromValue(IntType, 256), f), x => NonNull(x), _ => Null, NonNull(() => Null))
            == Ok(NonNull(f(256).value))
  {
  }
}
