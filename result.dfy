/** The current tree's `Result<TValue>` (src/FunSharp/FunSharp/Result.cs) with its static
    helpers, and the synchronous `Try` overloads of `FnUtils`
    (src/FunSharp/FunSharp/FnUtils.cs): `Result.Then` calls `Try` and `Try` returns a
    `Result`, so the two live in one module. */
module Results {
  import opened DotNet
  import opened ErrorRecord
  import FnUtils
  import Maybes

  /** A readonly struct: a `Maybe` slot and an `Error` slot. */
  datatype Result<T> = Result(value: Maybes.Maybe<T>, error: Error)

  /** The three states a `Result` can be observed in. */
  datatype State = ErrorState | SomeState | NoneState

  /** `HasError`: the error slot is not `default(Error)`. */
  predicate HasError<T>(r: Result<T>) {
    FnUtils.HasError(r.error)
  }

  /** `HasValue`: the `Maybe` slot has a value. */
  predicate HasValue<T(==)>(k: TypeInfo<T>, r: Result<T>) {
    Maybes.HasValue(k, r.value)
  }

  /** Error wins; otherwise Some or None by `HasValue`; the three are disjoint by construction. */
  function StateOf<T(==)>(k: TypeInfo<T>, r: Result<T>): State {
    if HasError(r) then ErrorState else if HasValue(k, r) then SomeState else NoneState
  }

  /** The value an error built from a fault carries (what `HandleError` builds). */
  predicate IsFaultError(e: Error, ex: Exception) {
    e.message == NonNull(ex.message) && e.exception == NonNull(ex) && e.errorData.Null?
  }

  // ---------------------------------------------------------------- construction

  /** `new Result(value)`, the implicit conversion from a value, and `Result.Of(value)`:
      Some exactly when the value passes the default rule, otherwise None, never Error. */
  function FromValue<T(==)>(k: TypeInfo<T>, v: T): (r: Result<T>)
    ensures r.value.value == v
    ensures StateOf(k, r) != ErrorState
    ensures StateOf(k, r) == SomeState <==> FnUtils.HasValue(k, v)
  {
    Result(Maybes.Of(k, v), NoError)
  }

  /** `new Result(None)` and the implicit conversion from `None`. */
  function FromNone<T(==)>(k: TypeInfo<T>): (r: Result<T>)
    ensures !HasError(r) && r.value == Maybes.Empty(k)
    ensures StateOf(k, r) == SomeState <==> k.isUnit(k.dflt)
  {
    Result(Maybes.Empty(k), NoError)
  }

  /** `new Result(error)` and the implicit conversion from an `Error`: the value slot is
      left empty. An error equal to `default(Error)`, such as `new Error(null)`, gives a
      `Result` indistinguishable from None. */
  function FromError<T(==)>(k: TypeInfo<T>, e: Error): (r: Result<T>)
    ensures r.error == e && r.value == Maybes.Empty(k)
    ensures StateOf(k, r) == ErrorState <==> FnUtils.HasError(e)
    ensures !FnUtils.HasError(e) ==> r == FromNone(k)
  {
    Result(Maybes.Empty(k), e)
  }

  /** The implicit conversion from a `Maybe`. */
  function FromMaybe<T(==)>(k: TypeInfo<T>, m: Maybes.Maybe<T>): (r: Result<T>)
    ensures Maybes.HasValue(k, m) ==> r == FromValue(k, m.value) && StateOf(k, r) == SomeState
    ensures !Maybes.HasValue(k, m) ==> r == FromNone(k)
  {
    if Maybes.HasValue(k, m) then Result(m, NoError) else Result(Maybes.Empty(k), NoError)
  }

  /** `Result.Of(T? nullable)`: `nullable ?? default`, then lifted; so a null and a present
      default both give None. */
  function OfNullable<T(==)>(k: TypeInfo<T>, n: Nullable<T>): (r: Result<T>)
    ensures n.Null? ==> r == FromNone(k)
    ensures n.NonNull? ==> r == FromValue(k, n.value)
  {
    FromValue(k, n.OrElse(k.dflt))
  }

  // ---------------------------------------------------------------- Try

  /** `FnUtils.Try<T>(Func<T> function, errorHandler)`, where `call` is what the single call
      of `function` produced: a returned value is lifted, a fault becomes the error
      `HandleError` builds, and the handler (if any) is invoked once with that error. */
  function Try<T(==)>(k: TypeInfo<T>, call: Outcome<T>, hasHandler: bool): (t: Traced<Result<T>, Error>)
    ensures call.Ok? ==> t.result == FromValue(k, call.value) && t.calls == []
    ensures StateOf(k, t.result) == ErrorState <==> call.Throw?
    ensures call.Throw? ==> IsFaultError(t.result.error, call.exception) && t.result.value == Maybes.Empty(k)
    ensures |t.calls| == (if call.Throw? && hasHandler then 1 else 0)
    ensures forall e <- t.calls :: e == t.result.error
  {
    match call
    case Ok(v) => Traced(FromValue(k, v), [])
    case Throw(ex) =>
      var h := FnUtils.HandleError(ex, hasHandler);
      Traced(FromError(k, h.result), h.calls)
  }

  /** `FnUtils.Try<T>(Func<Result<T>> function, errorHandler)`: a returned `Result` comes back
      unchanged, whatever its state. */
  function TryResult<T(==)>(k: TypeInfo<T>, call: Outcome<Result<T>>, hasHandler: bool): (t: Traced<Result<T>, Error>)
    ensures call.Ok? ==> t.result == call.value && t.calls == []
    ensures call.Throw? ==> StateOf(k, t.result) == ErrorState && IsFaultError(t.result.error, call.exception)
    ensures call.Throw? ==> t.result.value == Maybes.Empty(k)
    ensures |t.calls| == (if call.Throw? && hasHandler then 1 else 0)
    ensures forall e <- t.calls :: e == t.result.error
  {
    match call
    case Ok(r) => Traced(r, [])
    case Throw(ex) =>
      var h := FnUtils.HandleError(ex, hasHandler);
      Traced(FromError(k, h.result), h.calls)
  }

  /** `FnUtils.Try<TIn, TOut>(value, Func<TIn, TOut> function, errorHandler)`. */
  function TryApply<TIn, TOut(==)>(k: TypeInfo<TOut>, value: TIn, f: TIn -> Outcome<TOut>,
                                   hasHandler: bool): (t: Traced<Result<TOut>, Error>)
    ensures f(value).Ok? ==> t.result == FromValue(k, f(value).value) && t.calls == []
    ensures StateOf(k, t.result) == ErrorState <==> f(value).Throw?
    ensures f(value).Throw? ==> IsFaultError(t.result.error, f(value).exception) && t.result.value == Maybes.Empty(k)
    ensures |t.calls| == (if f(value).Throw? && hasHandler then 1 else 0)
    ensures forall e <- t.calls :: e == t.result.error
  {
    Try(k, f(value), hasHandler)
  }

  /** `FnUtils.Try<TIn, TOut>(value, Func<TIn, Result<TOut>> function, errorHandler)`. */
  function TryApplyResult<TIn, TOut(==)>(k: TypeInfo<TOut>, value: TIn, f: TIn -> Outcome<Result<TOut>>,
                                         hasHandler: bool): (t: Traced<Result<TOut>, Error>)
    ensures f(value).Ok? ==> t.result == f(value).value && t.calls == []
    ensures f(value).Throw? ==> StateOf(k, t.result) == ErrorState && IsFaultError(t.result.error, f(value).exception)
    ensures f(value).Throw? ==> t.result.value == Maybes.Empty(k)
    ensures forall e <- t.calls :: e == t.result.error
    ensures |t.calls| == (if f(value).Throw? && hasHandler then 1 else 0)
  {
    TryResult(k, f(value), hasHandler)
  }

  /** The result of `Try(value, f)` depends on `f` only through the one call `f(value)`. */
  lemma TryApplyCallsOnceWithValue<TIn, TOut>(k: TypeInfo<TOut>, value: TIn, f: TIn -> Outcome<TOut>,
                                              g: TIn -> Outcome<TOut>, hasHandler: bool)
    requires f(value) == g(value)
    ensures TryApply(k, value, f, hasHandler) == TryApply(k, value, g, hasHandler)
    ensures TryApply(k, value, f, hasHandler) == Try(k, f(value), hasHandler)
  {
  }

  /** The static `Result.Then(Func<T>)` (and `Result.Then(Func<Unit>)`): `Try` without a handler. */
  function Start<T(==)>(k: TypeInfo<T>, call: Outcome<T>): (r: Result<T>)
    ensures StateOf(k, r) == ErrorState <==> call.Throw?
    ensures call.Ok? ==> r == FromValue(k, call.value)
    ensures call.Throw? ==> IsFaultError(r.error, call.exception)
  {
    Try(k, call, false).result
  }

  /** The static `Result.Then(Func<Result<T>>)`. */
  function StartResult<T(==)>(k: TypeInfo<T>, call: Outcome<Result<T>>): (r: Result<T>)
    ensures call.Ok? ==> r == call.value
    ensures call.Throw? ==> StateOf(k, r) == ErrorState && IsFaultError(r.error, call.exception)
  {
    TryResult(k, call, false).result
  }

  // ---------------------------------------------------------------- observation

  /** `OnError(errorFunction)`: the callback runs, with the error, exactly in the Error state;
      the receiver is returned unchanged. */
  function OnError<T(==)>(k: TypeInfo<T>, r: Result<T>): (t: Traced<Result<T>, Error>)
    ensures t.result == r
    ensures t.calls == (if StateOf(k, r) == ErrorState then [r.error] else [])
  {
    Traced(r, if HasError(r) then [r.error] else [])
  }

  /** `OnSomeValue(valueFunction)`: runs, with the value, exactly in the Some state. */
  function OnSomeValue<T(==)>(k: TypeInfo<T>, r: Result<T>): (t: Traced<Result<T>, T>)
    ensures t.result == r
    ensures t.calls == (if StateOf(k, r) == SomeState then [r.value.value] else [])
  {
    Traced(r, if !HasError(r) && HasValue(k, r) then [r.value.value] else [])
  }

  /** `OnNoneValue(noValueFunction)`: runs exactly in the None state. */
  function OnNoneValue<T(==)>(k: TypeInfo<T>, r: Result<T>): (t: Traced<Result<T>, ()>)
    ensures t.result == r
    ensures t.calls == (if StateOf(k, r) == NoneState then [()] else [])
  {
    Traced(r, if !HasError(r) && !HasValue(k, r) then [()] else [])
  }

  /** `GetValueOrElse(fallback)`: the value in the Some state, the fallback otherwise. */
  function GetValueOrElse<T(==)>(k: TypeInfo<T>, r: Result<T>, fallback: T): (o: T)
    ensures StateOf(k, r) == SomeState ==> o == r.value.value
    ensures StateOf(k, r) != SomeState ==> o == fallback
  {
    if HasError(r) then fallback else Maybes.GetValueOrElse(k, r.value, fallback)
  }

  /** `Match(some, none, error)`: the error is checked first; exactly one handler supplies
      the result. */
  function Match<T(==), X>(k: TypeInfo<T>, r: Result<T>, some: T -> X, none: () -> X, error: Error -> X): (x: X)
    ensures StateOf(k, r) == ErrorState ==> x == error(r.error)
    ensures StateOf(k, r) == SomeState ==> x == some(r.value.value)
    ensures StateOf(k, r) == NoneState ==> x == none()
  {
    if HasError(r) then error(r.error) else Maybes.Match(k, r.value, some, none)
  }

  /** `Match(success, error)`: Some and None both count as success and receive `Unit.Create()`,
      here `unit`. */
  function MatchSuccess<T(==), U, X>(k: TypeInfo<T>, r: Result<T>, unit: U, success: U -> X, error: Error -> X): (x: X)
    ensures StateOf(k, r) == ErrorState ==> x == error(r.error)
    ensures StateOf(k, r) != ErrorState ==> x == success(unit)
  {
    if HasError(r) then error(r.error) else success(unit)
  }

  // ---------------------------------------------------------------- chaining

  /** `Then(Func<TValue, T> function)`: Error passes through with the same error, None gives
      None, and on Some the step runs under `Try`, so a fault becomes Error. */
  function Then<T(==), U(==)>(kT: TypeInfo<T>, kU: TypeInfo<U>, r: Result<T>, f: T -> Outcome<U>): (o: Result<U>)
    ensures StateOf(kT, r) == ErrorState ==> o == FromError(kU, r.error) && StateOf(kU, o) == ErrorState
    ensures StateOf(kT, r) == NoneState ==> o == FromNone(kU)
    ensures StateOf(kT, r) == SomeState ==>
              (StateOf(kU, o) == ErrorState <==> f(r.value.value).Throw?)
    ensures StateOf(kT, r) == SomeState && f(r.value.value).Ok? ==> o == FromValue(kU, f(r.value.value).value)
    ensures StateOf(kT, r) == SomeState && f(r.value.value).Throw? ==>
              IsFaultError(o.error, f(r.value.value).exception) && o.value == Maybes.Empty(kU)
  {
    if HasError(r) then FromError(kU, r.error)
    else if HasValue(kT, r) then TryApply(kU, r.value.value, f, false).result
    else FromNone(kU)
  }

  /** `Then(Func<TValue, Result<T>> function)`: as `Then`, but the step's own `Result` is
      returned unchanged. */
  function ThenResult<T(==), U(==)>(kT: TypeInfo<T>, kU: TypeInfo<U>, r: Result<T>,
                                   f: T -> Outcome<Result<U>>): (o: Result<U>)
    ensures StateOf(kT, r) == ErrorState ==> o == FromError(kU, r.error) && StateOf(kU, o) == ErrorState
    ensures StateOf(kT, r) == NoneState ==> o == FromNone(kU)
    ensures StateOf(kT, r) == SomeState && f(r.value.value).Ok? ==> o == f(r.value.value).value
    ensures StateOf(kT, r) == SomeState && f(r.value.value).Throw? ==>
              StateOf(kU, o) == ErrorState && IsFaultError(o.error, f(r.value.value).exception)
    ensures StateOf(kT, r) == SomeState && f(r.value.value).Throw? ==> o.value == Maybes.Empty(kU)
  {
    if HasError(r) then FromError(kU, r.error)
    else if HasValue(kT, r) then TryApplyResult(kU, r.value.value, f, false).result
    else FromNone(kU)
  }

  /** A chain `r.Then(s0).Then(s1)...` of steps that keep the value type. */
  function Chain<T(==)>(k: TypeInfo<T>, r: Result<T>, steps: seq<T -> Outcome<T>>): Result<T>
    decreases |steps|
  {
    if steps == [] then r else Chain(k, Then(k, k, r, steps[0]), steps[1..])
  }

  /** Once in the Error state, any number of further `Then` steps leave the same error. */
  lemma {:induction false} ErrorAbsorbs<T>(k: TypeInfo<T>, r: Result<T>, steps: seq<T -> Outcome<T>>)
    requires StateOf(k, r) == ErrorState
    ensures StateOf(k, Chain(k, r, steps)) == ErrorState
    ensures Chain(k, r, steps).error == r.error
    ensures r.value == Maybes.Empty(k) ==> Chain(k, r, steps) == r
    decreases |steps|
  {
    if steps != [] {
      ErrorAbsorbs(k, Then(k, k, r, steps[0]), steps[1..]);
    }
  }

  /** Once in the None state (of a type whose default is not a `Unit`), further steps never run. */
  lemma {:induction false} NoneAbsorbs<T>(k: TypeInfo<T>, steps: seq<T -> Outcome<T>>)
    requires !k.isUnit(k.dflt)
    ensures Chain(k, FromNone(k), steps) == FromNone(k)
    decreases |steps|
  {
    if steps != [] {
      NoneAbsorbs(k, steps[1..]);
    }
  }

  /** Chaining `a` then `b` is chaining `a + b`. */
  lemma {:induction false} ChainAppend<T>(k: TypeInfo<T>, r: Result<T>, a: seq<T -> Outcome<T>>, b: seq<T -> Outcome<T>>)
    ensures Chain(k, r, a + b) == Chain(k, Chain(k, r, a), b)
    decreases |a|
  {
    if a != [] {
      assert (a + b)[0] == a[0];
      assert (a + b)[1..] == a[1..] + b;
      ChainAppend(k, Then(k, k, r, a[0]), a[1..], b);
    } else {
      assert a + b == b;
    }
  }

  /** A fault anywhere in a chain short-circuits every later step: the chain ends in the
      Error state carrying the fault. */
  lemma FaultShortCircuits<T>(k: TypeInfo<T>, r: Result<T>, steps: seq<T -> Outcome<T>>, i: nat)
    requires i < |steps|
    requires StateOf(k, Chain(k, r, steps[..i])) == SomeState
    requires steps[i](Chain(k, r, steps[..i]).value.value).Throw?
    ensures StateOf(k, Chain(k, r, steps)) == ErrorState
    ensures IsFaultError(Chain(k, r, steps).error,
                         steps[i](Chain(k, r, steps[..i]).value.value).exception)
  {
    var before := Chain(k, r, steps[..i]);
    assert steps == steps[..i] + steps[i..];
    ChainAppend(k, r, steps[..i], steps[i..]);
    var failed := Then(k, k, before, steps[i]);
    assert Chain(k, before, steps[i..]) == Chain(k, failed, steps[i + 1..]);
    ErrorAbsorbs(k, failed, steps[i + 1..]);
  }

  /** Lifting a present value and chaining runs the step on that value. */
  lemma LeftIdentity<T, U>(kT: TypeInfo<T>, kU: TypeInfo<U>, v: T, f: T -> Outcome<Result<U>>)
    ensures FnUtils.HasValue(kT, v) ==> ThenResult(kT, kU, FromValue(kT, v), f) == TryApplyResult(kU, v, f, false).result
    ensures !FnUtils.HasValue(kT, v) ==> ThenResult(kT, kU, FromValue(kT, v), f) == FromNone(kU)
  {
  }

  /** `Of(v).Then(f).GetValueOrElse(fallback)` is `f(v)` when `v` is present, `f` does not
      throw and its result passes the default rule. */
  lemma OfThenGetValue<T, U>(kT: TypeInfo<T>, kU: TypeInfo<U>, v: T, f: T -> Outcome<U>, fallback: U)
    requires FnUtils.HasValue(kT, v) && f(v).Ok? && FnUtils.HasValue(kU, f(v).value)
    ensures GetValueOrElse(kU, Then(kT, kU, FromValue(kT, v), f), fallback) == f(v).value
  {
  }

  /** Chaining is associative, provided `default(U)` is not a `Unit` (otherwise the None
      produced by the first `Then` would count as a value and feed the second step). */
  lemma ThenAssociative<T, U, V>(kT: TypeInfo<T>, kU: TypeInfo<U>, kV: TypeInfo<V>, r: Result<T>,
                                 f: T -> Outcome<Result<U>>, g: U -> Outcome<Result<V>>)
    requires !kU.isUnit(kU.dflt)
    ensures ThenResult(kU, kV, ThenResult(kT, kU, r, f), g)
         == ThenResult(kT, kV, r, x => f(x).Map(ru => ThenResult(kU, kV, ru, g)))
  {
    var h := x => f(x).Map(ru => ThenResult(kU, kV, ru, g));
    match StateOf(kT, r)
    case ErrorState =>
    case NoneState =>
    case SomeState =>
      var v := r.value.value;
      match f(v)
      case Ok(ru) => assert h(v) == Ok(ThenResult(kU, kV, ru, g));
      case Throw(ex) => assert h(v) == Throw(ex);
  }

  // ---------------------------------------------------------------- query syntax

  /** `Result.SelectMany(monad, function, projection)`: two nested `Then`s. */
  function SelectManyProject<A(==), B(==), C(==)>(kA: TypeInfo<A>, kB: TypeInfo<B>, kC: TypeInfo<C>,
                                                 m: Result<A>, f: A -> Outcome<Result<B>>,
                                                 proj: (A, B) -> Outcome<C>): (o: Result<C>)
    ensures StateOf(kA, m) == ErrorState ==> o == FromError(kC, m.error)
    ensures StateOf(kA, m) == NoneState ==> o == FromNone(kC)
  {
    ThenResult(kA, kC, m, outer => f(outer).Map(inner => Then(kB, kC, inner, b => proj(outer, b))))
  }

  /** The projection runs only when both the source and the inner step are Some; a fault in
      either the inner step or the projection becomes Error. */
  lemma SelectManyProjectSteps<A, B, C>(kA: TypeInfo<A>, kB: TypeInfo<B>, kC: TypeInfo<C>,
                                        m: Result<A>, f: A -> Outcome<Result<B>>, proj: (A, B) -> Outcome<C>)
    ensures StateOf(kA, m) == ErrorState ==> SelectManyProject(kA, kB, kC, m, f, proj) == FromError(kC, m.error)
    ensures StateOf(kA, m) == NoneState ==> SelectManyProject(kA, kB, kC, m, f, proj) == FromNone(kC)
    ensures StateOf(kA, m) == SomeState && f(m.value.value).Throw? ==>
              StateOf(kC, SelectManyProject(kA, kB, kC, m, f, proj)) == ErrorState &&
              IsFaultError(SelectManyProject(kA, kB, kC, m, f, proj).error, f(m.value.value).exception)
    ensures StateOf(kA, m) == SomeState && f(m.value.value).Ok? && StateOf(kB, f(m.value.value).value) == ErrorState ==>
              SelectManyProject(kA, kB, kC, m, f, proj) == FromError(kC, f(m.value.value).value.error)
    ensures StateOf(kA, m) == SomeState && f(m.value.value).Ok? && StateOf(kB, f(m.value.value).value) == NoneState ==>
              SelectManyProject(kA, kB, kC, m, f, proj) == FromNone(kC)
    ensures StateOf(kA, m) == SomeState && f(m.value.value).Ok? && StateOf(kB, f(m.value.value).value) == SomeState ==>
              SelectManyProject(kA, kB, kC, m, f, proj)
              == TryApply(kC, f(m.value.value).value.value.value, b => proj(m.value.value, b), false).result
  {
  }

  /** `Result.Select(ma, f)`: Error passes through; otherwise `f` runs under `Try` on
      `ma.GetValueOrElse(default)`, so a None feeds `default(TIn)` to `f` instead of stopping. */
  function Select<T(==), U(==)>(kT: TypeInfo<T>, kU: TypeInfo<U>, ma: Result<T>, f: T -> Outcome<U>): (o: Result<U>)
    ensures StateOf(kT, ma) == ErrorState ==> o == FromError(kU, ma.error)
    ensures StateOf(kT, ma) != ErrorState ==> o == TryApply(kU, ma.value.value, f, false).result
  {
    if HasError(ma) then FromError(kU, ma.error)
    else TryApply(kU, GetValueOrElse(kT, ma, kT.dflt), f, false).result
  }

  /** `Result.SelectMany(ma, f)`. */
  function SelectMany<T(==), U(==)>(kT: TypeInfo<T>, kU: TypeInfo<U>, ma: Result<T>, f: T -> Outcome<Result<U>>): (o: Result<U>)
    ensures StateOf(kT, ma) == ErrorState ==> o == FromError(kU, ma.error)
    ensures StateOf(kT, ma) != ErrorState ==> o == TryApplyResult(kU, ma.value.value, f, false).result
  {
    if HasError(ma) then FromError(kU, ma.error)
    else TryApplyResult(kU, GetValueOrElse(kT, ma, kT.dflt), f, false).result
  }

  /** Unlike `Then`, `Select` on None calls `f` with `default(TIn)`. */
  lemma SelectOnNone<T, U>(kT: TypeInfo<T>, kU: TypeInfo<U>, ma: Result<T>, f: T -> Outcome<U>)
    requires StateOf(kT, ma) == NoneState
    ensures Select(kT, kU, ma, f) == Try(kU, f(kT.dflt), false).result
    ensures Then(kT, kU, ma, f) == FromNone(kU)
  {
    FnUtils.AbsentMeansDefault(kT, ma.value.value);
  }

  // ---------------------------------------------------------------- the tests' scenarios

  /** `Result<int>` of 0 is None and of 1 is Some; `new Error("error")` matches as the error. */
  lemma LiftingScenarios(message: string)
    ensures StateOf(IntType, FromValue(IntType, 0)) == NoneState
    ensures StateOf(IntType, FromValue(IntType, 1)) == SomeState
    ensures StateOf(StringType, FromValue(StringType, Null)) == NoneState
    ensures StateOf(BoolType, FromValue(BoolType, false)) == NoneState
    ensures Match(StringType, FromError(StringType, NewError(NonNull(message))),
                  _ => NonNull("some"), () => NonNull("none"), (e: Error) => e.message) == NonNull(message)
    ensures StateOf(IntType, FromError(IntType, NewError(Null))) == NoneState
  {
  }
}
