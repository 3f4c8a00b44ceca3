/** The older tree's adapters from `T?` (FunSharp/Nullables/NullableExtensions.cs). `T`
    is a value type, so `null` and `default(T)` are distinct. */
module LegacyNullables {
  import opened DotNet
  import LegacyOpt

  /** `ToOptional()`: null gives an `Opt` of `default(T)`, which is None; a value is lifted
      by the `Opt` rule, so a present 0 is None as well. */
  function ToOptional<T(==)>(k: TypeInfo<T>, n: Nullable<T>): (o: LegacyOpt.Opt<T>)
    ensures LegacyOpt.Valid(o)
    ensures n.Null? ==> o == LegacyOpt.FromNone(k)
    ensures n.NonNull? ==> o == LegacyOpt.FromValue(k, n.value)
    ensures o.isSome <==> n.NonNull? && n.value != k.dflt
  {
    LegacyOpt.FromValue(k, n.OrElse(k.dflt))
  }

  /** `Then<U, T>(Func<T, U> function)` as written: `nullable.HasValue ? function(v) :
      default` has type `U`, so on null `default` is `default(U)`, and the result is a
      non-null `U?` holding it. A fault is not caught. */
  function Then<T, U>(kU: TypeInfo<U>, n: Nullable<T>, f: T -> Outcome<U>): (o: Outcome<Nullable<U>>)
    ensures n.NonNull? ==> o == f(n.value).Map(u => NonNull(u))
    ensures n.Null? ==> o == Ok(NonNull(kU.dflt))
  {
    if n.NonNull? then f(n.value).Map(u => NonNull(u)) else Ok(NonNull(kU.dflt))
  }

  /** On null, `Then` as written reports a value: `default(U)`, never null. */
  lemma ThenOnNullIsNotNull<T, U>(kU: TypeInfo<U>, f: T -> Outcome<U>)
    ensures Then(kU, Null, f).Ok? && Then(kU, Null, f).value.NonNull?
    ensures Then(IntType, Null, (x: int) => Ok(x * 2)) == Ok(NonNull(0))
  {
  }

  /** `Then` as intended by its documentation: a new nullable, null when the input is. */
  function ThenIntended<T, U>(n: Nullable<T>, f: T -> Outcome<U>): (o: Outcome<Nullable<U>>)
    ensures n.Null? ==> o == Ok(Null)
    ensures n.NonNull? ==> o == f(n.value).Map(u => NonNull(u))
    ensures o.Ok? && o.value.Null? <==> n.Null?
  {
    if n.NonNull? then f(n.value).Map(u => NonNull(u)) else Ok(Null)
  }

  /** `Then<U, T>(Func<T, U?> function)`: here the conditional has type `U?`, so null gives
      null; a value gives the function's nullable unchanged. */
  function ThenNullable<T, U>(n: Nullable<T>, f: T -> Outcome<Nullable<U>>): (o: Outcome<Nullable<U>>)
    ensures n.NonNull? ==> o == f(n.value)
    ensures n.Null? ==> o == Ok(Null)
  {
    if n.NonNull? then f(n.value) else Ok(Null)
  }

  /** The intended `Then` is `ThenNullable` of the lifted function, and agrees with `Then`
      as written exactly on non-null input. */
  lemma ThenIntendedIsThenNullable<T, U>(kU: TypeInfo<U>, n: Nullable<T>, f: T -> Outcome<U>)
    ensures ThenIntended(n, f) == ThenNullable(n, x => f(x).Map(u => NonNull(u)))
    ensures ThenIntended(n, f) == Then(kU, n, f) <==> n.NonNull?
  {
  }

  /** `Match(some, none = null)`: `some(value)` when non-null, `none(None)` when null; a
      null with no `none` handler throws `NullReferenceException`. */
  function Match<T, X>(n: Nullable<T>, some: T -> X, none: Nullable<None -> X>): (o: Outcome<X>)
    ensures n.NonNull? ==> o == Ok(some(n.value))
    ensures n.Null? && none.NonNull? ==> o == Ok(none.value(NoneInstance))
    ensures o.Throw? <==> n.Null? && none.Null?
    ensures o.Throw? ==> o.exception == NullReferenceFault
  {
    match n
    case NonNull(v) => Ok(some(v))
    case Null =>
      match none
      case NonNull(handler) => Ok(handler(NoneInstance))
      case Null => Throw(NullReferenceFault)
  }

  /** The library's tests: 95 converts to Some and reads back; null converts to None. */
  lemma ToOptionalScenarios()
    ensures !ToOptional(IntType, NonNull(95)).isNone
    ensures LegacyOpt.GetValueOrElse(ToOptional(IntType, NonNull(95)), 0) == 95
    ensures !ToOptional(IntType, Null).isSome
    ensures Match(Null, (t: int) => NonNull("some"), NonNull(_ => NonNull("none"))) == Ok(NonNull("none"))
  {
  }
}
