/** The current tree's adapters from `T?` (src/FunSharp/FunSharp/Nullables/NullableExtensions.cs).
    `T` is a value type here, so `null` is distinct from `default(T)`; the adapters test
    `Nullable.HasValue` (non-null), not the library's default rule. */
module Nullables {
  import opened DotNet
  import FnUtils
  import Maybes
  import Results

  /** `ToMaybe()`: `nullable ?? default`, converted to a `Maybe`. */
  function ToMaybe<T(==)>(k: TypeInfo<T>, n: Nullable<T>): (m: Maybes.Maybe<T>)
    ensures n.Null? ==> m == Maybes.Empty(k)
    ensures n.NonNull? ==> m.value == n.value
    ensures Maybes.HasValue(k, m) <==> (n.NonNull? && FnUtils.HasValue(k, n.value)) || (n.Null? && k.isUnit(k.dflt))
  {
    Maybes.Maybe(n.OrElse(k.dflt))
  }

  /** `ToResult()`: `nullable ?? default`, converted to a `Result`; never Error. */
  function ToResult<T(==)>(k: TypeInfo<T>, n: Nullable<T>): (r: Results.Result<T>)
    ensures !Results.HasError(r)
    ensures n.Null? ==> r == Results.FromNone(k)
    ensures n.NonNull? ==> r == Results.FromValue(k, n.value)
  {
    Results.FromValue(k, n.OrElse(k.dflt))
  }

  /** `Then(Func<TIn, TOut> function)`: calls `function` on any non-null value, even
      `default(TIn)`, and lifts its result; null gives `default(Maybe<TOut>)`. A fault is
      not caught. */
  function Then<T, U(==)>(kU: TypeInfo<U>, n: Nullable<T>, f: T -> Outcome<U>): (o: Outcome<Maybes.Maybe<U>>)
    ensures n.Null? ==> o == Ok(Maybes.Empty(kU))
    ensures n.NonNull? ==> o == f(n.value).Map(u => Maybes.Maybe(u))
    ensures o.Throw? <==> n.NonNull? && f(n.value).Throw?
  {
    if n.NonNull? then f(n.value).Map(u => Maybes.Of(kU, u)) else Ok(Maybes.Empty(kU))
  }

  /** `Then(Func<TIn, Maybe<TOut>> function)`: the function's `Maybe` unchanged. */
  function ThenMaybe<T, U(==)>(kU: TypeInfo<U>, n: Nullable<T>, f: T -> Outcome<Maybes.Maybe<U>>): (o: Outcome<Maybes.Maybe<U>>)
    ensures n.Null? ==> o == Ok(Maybes.Empty(kU))
    ensures n.NonNull? ==> o == f(n.value)
  {
    if n.NonNull? then f(n.value) else Ok(Maybes.Empty(kU))
  }

  /** `Match(some, none = null)`: `some(value)` when non-null, `none()` when null; a null
      with no `none` handler calls through a null delegate and throws
      `NullReferenceException`. */
  function Match<T, X>(n: Nullable<T>, some: T -> X, none: Nullable<() -> X>): (o: Outcome<X>)
    ensures n.NonNull? ==> o == Ok(some(n.value))
    ensures n.Null? && none.NonNull? ==> o == Ok(none.value())
    ensures o.Throw? <==> n.Null? && none.Null?
    ensures o.Throw? ==> o.exception == NullReferenceFault
  {
    match n
    case NonNull(v) => Ok(some(v))
    case Null =>
      match none
      case NonNull(handler) => Ok(handler())
      case Null => Throw(NullReferenceFault)
  }

  /** The adapters test for null, `Maybe.Then` tests the default rule: on a present
      `default(T)` the adapter's `Then` runs the step, while converting first and then
      chaining does not. */
  lemma ThenIsNotToMaybeThen<T, U>(kT: TypeInfo<T>, kU: TypeInfo<U>, f: T -> Outcome<U>)
    requires !kT.isUnit(kT.dflt)
    ensures Then(kU, NonNull(kT.dflt), f) == f(kT.dflt).Map(u => Maybes.Of(kU, u))
    ensures Maybes.Then(kT, kU, ToMaybe(kT, NonNull(kT.dflt)), f) == Ok(Maybes.Empty(kU))
  {
  }

  /** Away from the default, the two agree. */
  lemma ThenAgreesWithToMaybeThen<T, U>(kT: TypeInfo<T>, kU: TypeInfo<U>, n: Nullable<T>, f: T -> Outcome<U>)
    requires n.NonNull? ==> FnUtils.HasValue(kT, n.value)
    requires n.Null? ==> !kT.isUnit(kT.dflt)
    ensures Then(kU, n, f) == Maybes.Then(kT, kU, ToMaybe(kT, n), f)
  {
  }

  /** The library's tests: `int?` 100 converts to a value, null to none; `Match` picks
      `some` or `none`; `Then(n => 200)` on 100 gives 200; a `Maybe`-returning step on 100
      gives its `Maybe` of 50, and on null no value. */
  lemma IntScenarios()
    ensures Maybes.HasValue(IntType, ToMaybe(IntType, NonNull(100)))
    ensures !Maybes.HasValue(IntType, ToMaybe(IntType, Null))
    ensures Results.StateOf(IntType, ToResult(IntType, NonNull(100))) == Results.SomeState
    ensures Results.StateOf(IntType, ToResult(IntType, Null)) == Results.NoneState
    ensures Match(NonNull(100), (v: int) => v, NonNull(() => 0)) == Ok(100)
    ensures Match(Null, (v: int) => v, NonNull(() => 0)) == Ok(0)
    ensures Then(IntType, NonNull(100), (n: int) => Ok(100 * 2)) == Ok(Maybes.Maybe(200))
    ensures Then(IntType, Null, (n: int) => Ok(n)) == Ok(Maybes.Maybe(0))
    ensures ThenMaybe(IntType, NonNull(100), (_: int) => Ok(Maybes.Of(IntType, 50))) == Ok(Maybes.Maybe(50))
    ensures Maybes.GetValueOrElse(IntType, ThenMaybe(IntType, NonNull(100), (_: int) => Ok(Maybes.Of(IntType, 50))).value, 0) == 50
    ensures !Maybes.HasValue(IntType, ThenMaybe(IntType, Null, (_: int) => Ok(Maybes.Empty(IntType))).value)
  {
  }
}
