/** The current tree's `Maybe<TValue>` (src/FunSharp/FunSharp/Maybe.cs), its static
    factory `Maybe` and the query-syntax adapters of `MaybeExtensions`. */
module Maybes {
  import opened DotNet
  import FnUtils

  /** A readonly struct holding one value. Whether it "has" the value is not a flag: it is
      the default rule applied to the stored value. `default(Maybe<T>)` is `Maybe(default(T))`. */
  datatype Maybe<T> = Maybe(value: T)

  /** `HasValue`: `FnUtils.HasValue` of the stored value. */
  predicate HasValue<T(==)>(k: TypeInfo<T>, m: Maybe<T>) {
    FnUtils.HasValue(k, m.value)
  }

  /** `new Maybe(value)`, the implicit conversion from a value, and `Maybe.Of(value)`. */
  function Of<T(==)>(k: TypeInfo<T>, v: T): (m: Maybe<T>)
    ensures m.value == v
    ensures HasValue(k, m) <==> FnUtils.HasValue(k, v)
  {
    Maybe(v)
  }

  /** `new Maybe(None)`, the implicit conversion from `None` and `Maybe.Empty<T>()`: they
      store `default(T)`, which has a value only if `default(T)` is itself a `Unit`. */
  function Empty<T(==)>(k: TypeInfo<T>): (m: Maybe<T>)
    ensures m.value == k.dflt
    ensures HasValue(k, m) <==> k.isUnit(k.dflt)
  {
    Maybe(k.dflt)
  }

  /** `Maybe.Of(T? nullable)`: `nullable ?? default`, then lifted. */
  function OfNullable<T(==)>(k: TypeInfo<T>, n: Nullable<T>): (m: Maybe<T>)
    ensures n.Null? ==> m == Empty(k)
    ensures n.NonNull? ==> m == Of(k, n.value)
  {
    Of(k, n.OrElse(k.dflt))
  }

  /** `GetValueOrElse(fallback)`. */
  function GetValueOrElse<T(==)>(k: TypeInfo<T>, m: Maybe<T>, fallback: T): (r: T)
    ensures HasValue(k, m) ==> r == m.value
    ensures !HasValue(k, m) ==> r == fallback
  {
    if HasValue(k, m) then m.value else fallback
  }

  /** `Match(some, none)`: exactly one of the two handlers supplies the result. */
  function Match<T(==), X>(k: TypeInfo<T>, m: Maybe<T>, some: T -> X, none: () -> X): (r: X)
    ensures HasValue(k, m) ==> r == some(m.value)
    ensures !HasValue(k, m) ==> r == none()
  {
    if HasValue(k, m) then some(m.value) else none()
  }

  /** `Then(Func<TValue, T>)`: applies the step only to a value; the step's result is lifted
      by the default rule. A fault raised by the step is not caught. */
  function Then<T(==), U(==)>(kT: TypeInfo<T>, kU: TypeInfo<U>, m: Maybe<T>, f: T -> Outcome<U>): (o: Outcome<Maybe<U>>)
    ensures o.Throw? <==> HasValue(kT, m) && f(m.value).Throw?
    ensures o.Throw? ==> o.exception == f(m.value).exception
    ensures HasValue(kT, m) && f(m.value).Ok? ==> o == Ok(Of(kU, f(m.value).value))
    ensures !HasValue(kT, m) ==> o == Ok(Empty(kU))
  {
    if HasValue(kT, m) then f(m.value).Map(u => Of(kU, u)) else Ok(Empty(kU))
  }

  /** `Then(Func<TValue, Maybe<T>>)`: the step's `Maybe` is returned as it is. */
  function ThenMaybe<T(==), U(==)>(kT: TypeInfo<T>, kU: TypeInfo<U>, m: Maybe<T>,
                                  f: T -> Outcome<Maybe<U>>): (o: Outcome<Maybe<U>>)
    ensures HasValue(kT, m) ==> o == f(m.value)
    ensures !HasValue(kT, m) ==> o == Ok(Empty(kU))
  {
    if HasValue(kT, m) then f(m.value) else Ok(Empty(kU))
  }

  /** `Then(Action<TValue>)`: runs the action once on a value and returns `Unit` (`unit` is
      the value `Unit.Create()` returns, `kU` describes the `Unit` type); on no value the
      action is not run and `default(Maybe<Unit>)` is returned. `Execute` does not catch, so
      a fault of the action escapes. The trace lists the arguments the action was invoked
      with. */
  function ThenDo<T(==), U(==)>(kT: TypeInfo<T>, kU: TypeInfo<U>, unit: U, m: Maybe<T>,
                                action: T -> Outcome<()>): (t: Traced<Outcome<Maybe<U>>, T>)
    requires kU.isUnit(unit)
    ensures t.calls == (if HasValue(kT, m) then [m.value] else [])
    ensures t.result.Throw? <==> HasValue(kT, m) && action(m.value).Throw?
    ensures t.result.Throw? ==> t.result.exception == action(m.value).exception
    ensures HasValue(kT, m) && action(m.value).Ok? ==>
              t.result == Ok(Of(kU, unit)) && HasValue(kU, t.result.value)
    ensures !HasValue(kT, m) ==> t.result == Ok(Empty(kU))
  {
    if HasValue(kT, m) then Traced(action(m.value).Map(_ => Of(kU, unit)), [m.value])
    else Traced(Ok(Empty(kU)), [])
  }

  /** `MaybeExtensions.SelectMany(monad, function, projection)`: the query form
      `from a in m from b in f(a) select proj(a, b)`, built from two nested `Then`s. */
  function SelectManyProject<A(==), B(==), C(==)>(kA: TypeInfo<A>, kB: TypeInfo<B>, kC: TypeInfo<C>,
                                                 m: Maybe<A>, f: A -> Outcome<Maybe<B>>,
                                                 proj: (A, B) -> Outcome<C>): (o: Outcome<Maybe<C>>)
    ensures !HasValue(kA, m) ==> o == Ok(Empty(kC))
    ensures o.Throw? ==> HasValue(kA, m)
  {
    ThenMaybe(kA, kC, m, outer =>
      match f(outer)
      case Throw(ex) => Throw(ex)
      case Ok(inner) => Then(kB, kC, inner, b => proj(outer, b)))
  }

  /** `MaybeExtensions.Select(ma, f)`: `f(ma.GetValueOrElse(default))`, lifted. It does not
      look at `HasValue`: on no value, `f` is applied to `default(TIn)`. */
  function Select<T(==), U(==)>(kT: TypeInfo<T>, kU: TypeInfo<U>, ma: Maybe<T>, f: T -> Outcome<U>): (o: Outcome<Maybe<U>>)
    ensures o == f(ma.value).Map(u => Of(kU, u))
  {
    f(GetValueOrElse(kT, ma, kT.dflt)).Map(u => Of(kU, u))
  }

  /** `MaybeExtensions.SelectMany(ma, f)`: `f(ma.GetValueOrElse(default))`. */
  function SelectMany<T(==), U>(kT: TypeInfo<T>, ma: Maybe<T>, f: T -> Outcome<Maybe<U>>): (o: Outcome<Maybe<U>>)
    ensures o == f(ma.value)
  {
    f(GetValueOrElse(kT, ma, kT.dflt))
  }

  /** Asking for the value with `default(T)` as fallback always yields the stored value:
      a `Maybe` without a value stores exactly the default. */
  lemma GetValueOrDefaultIsStored<T>(k: TypeInfo<T>, m: Maybe<T>)
    ensures GetValueOrElse(k, m, k.dflt) == m.value
  {
  }

  /** `Match` with the identity and a constant is `GetValueOrElse`. */
  lemma MatchIsGetValueOrElse<T>(k: TypeInfo<T>, m: Maybe<T>, fallback: T)
    ensures Match(k, m, x => x, () => fallback) == GetValueOrElse(k, m, fallback)
  {
  }

  /** `Then` is `ThenMaybe` with the step's value lifted. */
  lemma ThenIsThenMaybeOfLift<T, U>(kT: TypeInfo<T>, kU: TypeInfo<U>, m: Maybe<T>, f: T -> Outcome<U>)
    ensures Then(kT, kU, m, f) == ThenMaybe(kT, kU, m, x => f(x).Map(u => Of(kU, u)))
  {
  }

  /** Left identity holds only for a value that passes the default rule: lifting the
      default and chaining never reaches the step. */
  lemma LeftIdentity<T, U>(kT: TypeInfo<T>, kU: TypeInfo<U>, a: T, f: T -> Outcome<Maybe<U>>)
    ensures FnUtils.HasValue(kT, a) ==> ThenMaybe(kT, kU, Of(kT, a), f) == f(a)
    ensures !FnUtils.HasValue(kT, a) ==> ThenMaybe(kT, kU, Of(kT, a), f) == Ok(Empty(kU))
  {
  }

  /** Right identity holds for every `Maybe`, because one without a value stores the default. */
  lemma {:induction false} RightIdentity<T>(k: TypeInfo<T>, m: Maybe<T>)
    ensures ThenMaybe(k, k, m, x => Ok(Of(k, x))) == Ok(m)
  {
    if !HasValue(k, m) {
      FnUtils.AbsentMeansDefault(k, m.value);
    }
  }

  /** Nothing is asked of `f` or `proj` when the source has no value; with values all the
      way, the projection of both values is lifted. */
  lemma SelectManyProjectSteps<A, B, C>(kA: TypeInfo<A>, kB: TypeInfo<B>, kC: TypeInfo<C>,
                                        m: Maybe<A>, f: A -> Outcome<Maybe<B>>, proj: (A, B) -> Outcome<C>)
    ensures !HasValue(kA, m) ==> SelectManyProject(kA, kB, kC, m, f, proj) == Ok(Empty(kC))
    ensures HasValue(kA, m) && f(m.value).Throw? ==>
              SelectManyProject(kA, kB, kC, m, f, proj) == Throw(f(m.value).exception)
    ensures HasValue(kA, m) && f(m.value).Ok? && HasValue(kB, f(m.value).value) ==>
              SelectManyProject(kA, kB, kC, m, f, proj)
              == proj(m.value, f(m.value).value.value).Map(c => Of(kC, c))
    ensures HasValue(kA, m) && f(m.value).Ok? && !HasValue(kB, f(m.value).value) ==>
              SelectManyProject(kA, kB, kC, m, f, proj) == Ok(Empty(kC))
  {
  }

  /** `Select` on a `Maybe` without a value still calls `f`, with `default(TIn)`. */
  lemma SelectIgnoresAbsence<T, U>(kT: TypeInfo<T>, kU: TypeInfo<U>, ma: Maybe<T>, f: T -> Outcome<U>)
    requires !HasValue(kT, ma)
    ensures Select(kT, kU, ma, f) == f(kT.dflt).Map(u => Of(kU, u))
    ensures SelectMany(kT, ma, x => f(x).Map(u => Of(kU, u))) == Select(kT, kU, ma, f)
  {
  }
}
