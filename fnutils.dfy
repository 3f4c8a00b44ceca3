/** The predicates and the fault-to-error conversion of `FnUtils`
    (src/FunSharp/FunSharp/FnUtils.cs). The `Try` overloads live in module Results and
    `Using` in module Scoped: FnUtils.cs and Result.cs call each other, and Dafny modules
    cannot import each other in a cycle. */
module FnUtils {
  import opened DotNet
  import opened ErrorRecord

  /** `HasValue(value)`: a `Unit` always counts as a value; any other value counts
      only when it differs from `default(T)`. */
  predicate HasValue<T(==)>(k: TypeInfo<T>, v: T) {
    k.isUnit(v) || v != k.dflt
  }

  /** `HasError(error)`: the error differs from `default(Error)`. */
  predicate HasError(e: Error) {
    e != NoError
  }

  /** `HandleError(ex, errorHandler)`: builds the error from the fault and, when a handler
      is supplied (`hasHandler`), invokes it with that error before returning it. */
  function HandleError(ex: Exception, hasHandler: bool): (h: Traced<Error, Error>)
    ensures h.result == NewError(NonNull(ex.message), NonNull(ex))
    ensures h.result.errorData.Null?
    ensures HasError(h.result)
    ensures |h.calls| == (if hasHandler then 1 else 0)
    ensures forall e <- h.calls :: e == h.result
  {
    var error := NewError(NonNull(ex.message), NonNull(ex));
    Traced(error, if hasHandler then [error] else [])
  }

  /** A value without a value is the default; the default lacks a value unless it is a `Unit`. */
  lemma AbsentMeansDefault<T>(k: TypeInfo<T>, v: T)
    ensures !HasValue(k, v) <==> v == k.dflt && !k.isUnit(k.dflt)
  {
  }

  /** An `Error` whose three fields are null is the default one, so it reports no error. */
  lemma HasErrorIffSomeField(message: Nullable<string>, ex: Nullable<Exception>, data: Nullable<Payload>)
    ensures HasError(NewError(message, ex, data)) <==> message.NonNull? || ex.NonNull? || data.NonNull?
  {
  }

  /** The defaults the tests rely on: null, 0 and false count as absent; a `Unit` struct
      would count as present even as its own default, a `Unit` class would not. */
  lemma DefaultsOfCommonTypes()
    ensures !HasValue(IntType, 0) && HasValue(IntType, 1)
    ensures !HasValue(BoolType, false) && HasValue(BoolType, true)
    ensures !HasValue(StringType, Null) && HasValue(StringType, NonNull(""))
    ensures HasValue(UnitStructType, Unit)
    ensures !HasValue(UnitClassType, Null) && HasValue(UnitClassType, NonNull(Unit))
  {
  }
}
