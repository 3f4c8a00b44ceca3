/** The older tree's `Opt<TValue>` (FunSharp/Opt.cs): a class whose `IsSome` and `IsNone`
    flags are fixed by its constructors. Being a class, `default(Opt<T>)` is a null
    reference; the members below are those of a non-null instance. */
module LegacyOpt {
  import opened DotNet

  datatype Opt<T> = Opt(value: T, isSome: bool, isNone: bool)

  /** Exactly one of the two flags holds. */
  predicate Valid<T>(o: Opt<T>) {
    o.isSome == !o.isNone
  }

  /** `new Opt(some)`, the implicit conversion from a value and `Opt.Of(value)`: None
      exactly when the value is null or equals `default(T)`; unlike the current tree's
      rule there is no exception for `Unit`. */
  function FromValue<T(==)>(k: TypeInfo<T>, v: T): (o: Opt<T>)
    ensures o.value == v
    ensures o.isNone <==> v == k.dflt
    ensures Valid(o)
  {
    var none := v == k.dflt;
    Opt(v, !none, none)
  }

  /** `new Opt(None)`, the implicit conversion from `None` and `Opt.Empty<T>()`. */
  function FromNone<T>(k: TypeInfo<T>): (o: Opt<T>)
    ensures o.isNone && !o.isSome && o.value == k.dflt
    ensures Valid(o)
  {
    Opt(k.dflt, false, true)
  }

  /** Lifting the default is the same as the `None` constructor. */
  lemma DefaultIsEmpty<T>(k: TypeInfo<T>)
    ensures FromValue(k, k.dflt) == FromNone(k)
  {
  }

  /** `GetValueOrElse(fallback)`. */
  function GetValueOrElse<T>(o: Opt<T>, fallback: T): (r: T)
    ensures o.isNone ==> r == fallback
    ensures !o.isNone ==> r == o.value
  {
    if o.isNone then fallback else o.value
  }

  /** `OnSome(action)`: the action runs on the value exactly when `IsSome`; the same
      instance is returned. */
  function OnSome<T>(o: Opt<T>): (t: Traced<Opt<T>, T>)
    ensures t.result == o
    ensures t.calls == (if o.isSome then [o.value] else [])
  {
    Traced(o, if o.isSome then [o.value] else [])
  }

  /** `OnNone(action)`: the action runs exactly when `IsNone`. */
  function OnNone<T>(o: Opt<T>): (t: Traced<Opt<T>, ()>)
    ensures t.result == o
    ensures t.calls == (if o.isNone then [()] else [])
  {
    Traced(o, if o.isNone then [()] else [])
  }

  /** `Match(some, none = null)`: `some(Value)` when `IsSome`; otherwise `none(None)` when
      a handler is given and `default(T)` when it is not. */
  function Match<T, X>(kX: TypeInfo<X>, o: Opt<T>, some: T -> X, none: Nullable<None -> X>): (x: X)
    ensures o.isSome ==> x == some(o.value)
    ensures !o.isSome && none.NonNull? ==> x == none.value(NoneInstance)
    ensures !o.isSome && none.Null? ==> x == kX.dflt
  {
    if o.isSome then some(o.value) else none.OrElse(_ => kX.dflt)(NoneInstance)
  }

  /** `Then(Func<TValue, T> function)`: the function runs only when `IsSome`, and its result
      is lifted; otherwise the conditional yields `default(T)`, lifted to an `Opt` that is
      None. A fault is not caught. */
  function Then<T, U(==)>(kU: TypeInfo<U>, o: Opt<T>, f: T -> Outcome<U>): (r: Outcome<Opt<U>>)
    ensures o.isSome ==> r == f(o.value).Map(u => FromValue(kU, u))
    ensures !o.isSome ==> r == Ok(FromNone(kU))
    ensures r.Ok? ==> Valid(r.value)
  {
    if o.isSome then f(o.value).Map(u => FromValue(kU, u)) else Ok(FromValue(kU, kU.dflt))
  }

  /** `Then(Func<TValue, Opt<T>> function)`: the function's `Opt` reference when `IsSome`;
      otherwise `default(Opt<T>)`, a null reference. */
  function ThenOpt<T, U>(o: Opt<T>, f: T -> Outcome<Nullable<Opt<U>>>): (r: Outcome<Nullable<Opt<U>>>)
    ensures o.isSome ==> r == f(o.value)
    ensures !o.isSome ==> r == Ok(Null)
  {
    if o.isSome then f(o.value) else Ok(Null)
  }

  /** A member call on an `Opt` reference: throws `NullReferenceException` on null. */
  function CallOn<T, X>(ref: Nullable<Opt<T>>, member: Opt<T> -> Outcome<X>): (r: Outcome<X>)
    ensures ref.Null? ==> r == Throw(NullReferenceFault)
    ensures ref.NonNull? ==> r == member(ref.value)
  {
    match ref
    case Null => Throw(NullReferenceFault)
    case NonNull(o) => member(o)
  }

  /** So a chain that continues after an `Opt`-returning `Then` on None does not stay None:
      the next call throws. */
  lemma ChainAfterNoneThrows<T, U, V>(kV: TypeInfo<V>, o: Opt<T>, f: T -> Outcome<Nullable<Opt<U>>>, g: U -> Outcome<V>)
    requires !o.isSome
    ensures ThenOpt(o, f) == Ok(Null)
    ensures CallOn(ThenOpt(o, f).value, (p: Opt<U>) => Then(kV, p, g)) == Throw(NullReferenceFault)
  {
  }

  /** The library's tests: null, 0 and false are None, a present value is Some and is what
      `GetValueOrElse` and `Match` return; `Opt.Empty` is None. */
  lemma OptScenarios()
    ensures FromValue(StringType, Null).isNone && !FromValue(StringType, Null).isSome
    ensures FromValue(IntType, 0).isNone && FromValue(BoolType, false).isNone
    ensures GetValueOrElse(FromValue(IntType, 100), 0) == 100
    ensures Match(IntType, FromValue(IntType, 134), x => x, NonNull(_ => 0)) == 134
    ensures Match(IntType, FromValue(StringType, Null), _ => 10, NonNull(_ => 0)) == 0
    ensures FromNone(IntType).isNone
    ensures FromValue(UnitClassType, NonNull(Unit)).isSome
  {
  }
}
