/** The pieces of the .NET runtime that both generations of the library lean on:
    the marker types, exceptions, null, the default value of a type, and calls that
    may throw. None of this is library code; it is the vocabulary the models use. */
module DotNet {

  /** The library's `Unit`: a value standing in for `void`. */
  datatype Unit = Unit

  /** The library's `None` marker struct, passed to mark deliberate absence. */
  datatype None = NoneInstance

  datatype ExceptionKind =
    | ArgumentError         // System.ArgumentException
    | NotSupported          // System.NotSupportedException
    | NullReference         // System.NullReferenceException
    | Raised(id: nat)       // any other exception a caller's code throws

  /** An exception object. .NET never hands out a null `Message`, so it is a plain string. */
  datatype Exception = Exception(kind: ExceptionKind, message: string)

  /** An opaque object reference, such as the `ErrorData` payload of an error. */
  datatype Payload = Payload(id: nat)

  /** A value that may be null: a nullable reference or a `T?` of a value type. */
  datatype Nullable<T> = Null | NonNull(value: T)
  {
    /** C#'s `x ?? fallback`. */
    function OrElse(fallback: T): T {
      match this
      case NonNull(v) => v
      case Null => fallback
    }
  }

  /** What one call of a function that may throw produces. */
  datatype Outcome<T> = Ok(value: T) | Throw(exception: Exception)
  {
    /** Passes a fault through untouched and maps a returned value. */
    function Map<U>(f: T -> U): Outcome<U> {
      match this
      case Ok(v) => Ok(f(v))
      case Throw(ex) => Throw(ex)
    }
  }

  /** A result together with the arguments an `Action` callback was invoked with, in order. */
  datatype Traced<R, A> = Traced(result: R, calls: seq<A>)

  /** What the runtime knows about a type parameter `T`: `default(T)` (null for a
      reference or nullable type, zero for numbers, false for bool, a zeroed struct) and
      the test `value is Unit`. Null is never a `Unit`. */
  datatype TypeInfo<!T> = TypeInfo(dflt: T, isUnit: T -> bool)

  // The exceptions the library itself throws.
  const InvalidIndex: Exception := Exception(ArgumentError, "Invalid index.")
  const NotSupportedFault: Exception := Exception(NotSupported, "Specified method is not supported.")
  const NullReferenceFault: Exception :=
    Exception(NullReference, "Object reference not set to an instance of an object.")

  // Type descriptors for the element types the library's tests use.
  const IntType: TypeInfo<int> := TypeInfo(0, _ => false)
  const BoolType: TypeInfo<bool> := TypeInfo(false, _ => false)
  const StringType: TypeInfo<Nullable<string>> := TypeInfo(Null, _ => false)
  /** `Unit` declared as a class (as in the older tree): its default is a null reference. */
  const UnitClassType: TypeInfo<Nullable<Unit>> := TypeInfo(Null, (u: Nullable<Unit>) => u.NonNull?)
  /** `Unit` declared as a struct: its default is itself a `Unit`. */
  const UnitStructType: TypeInfo<Unit> := TypeInfo(Unit, _ => true)
}
