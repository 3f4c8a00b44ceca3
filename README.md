# FunSharp in Dafny

A Dafny model of FunSharp, a small C# library of functional value types, and proofs
about it. The library has two generations, and each is modelled in its own modules;
the two are never merged.

The current tree (`src/FunSharp/FunSharp/`) has these parts:
- the `Error` record (module `ErrorRecord`);
- the "has value" and "has error" rules and the fault-to-error conversion of `FnUtils`
  (module `FnUtils`);
- `Maybe<T>` (module `Maybes`);
- `Result<T>` together with the synchronous `Try` overloads (module `Results`);
- the synchronous `Using` overloads (module `Scoped`);
- the tagged unions `Choose<T0..T4>` (module `Chooses`);
- the `Validate` builder (module `Validation`);
- the `T?` adapters (module `Nullables`).

The older tree (`FunSharp/`) has these parts:
- the `Error` class (module `LegacyError`);
- `Opt<T>` (module `LegacyOpt`);
- `Res<T>` (module `LegacyRes`);
- the two `TryFunctions` classes (modules `LegacyTryFunctions` and `LegacyTry`);
- the `T?` adapters (module `LegacyNullables`).

Module `DotNet` holds the runtime vocabulary both trees rely on:
- `Nullable<T>` stands for a null reference or a `T?`.
- `Outcome<T>` is what one call of a function that may throw produces: `Ok(value)` or `Throw(exception)`.
- `Traced<R, A>` pairs a result with the arguments an `Action` callback was invoked with.
- `TypeInfo<T>` carries `default(T)` and the runtime test `value is Unit`.

How the C# mechanics are represented:
- **Default values.** A value "has a value" when it is a `Unit` or differs from
  `default(T)`. Null is the default of every type that admits it, and it is never a `Unit`.
- **Faults.** A callback whose faults matter (a `Then` step, a `Try` thunk, an error
  mapper, a `Using` function or `Dispose`) returns an `Outcome`. A `Func<T>` thunk is
  represented by the `Outcome` of its single call.
- **Callbacks.** `Match` handlers and tap actions are pure functions. An action's
  invocations are the `calls` of a `Traced` result.
- **Validate.** `Validate` is the one stateful part. Its `List` is the class `ErrorList`,
  and `For` mutates that list in place. The `Validate` and `ValidationResult` structs are
  datatypes holding the same `ErrorList` reference, so copies share the list exactly as
  in C#.
- **Using.** `Using` is a method that returns an event trace (`Acquire`, `Call`, `Dispose`,
  `Handle`). Its contract states the call-once, dispose-once and dispose-after-call
  guarantees.

Differences between the trees that the proofs make explicit:
- The current `Error` keeps a null message; the older one falls back to the exception's message.
- The current default rule exempts `Unit`; `Opt` does not.
- On None, `Res.GetValueOrElse` returns the stored default and not the fallback.
- `Res.Then` with a `Res`-returning step does not catch faults.
- `Opt.Then` with an `Opt`-returning step yields a null reference on None.

Cyclic references are arranged as follows:
- `Result.Then` calls `FnUtils.Try`, and `Try` returns a `Result`. Dafny modules cannot
  import each other in a cycle, so the `Try` overloads live in `Results`.
- In the older tree, `Res.Then` and `Res.Fail` write out the catch they need.
  `LegacyTryFunctions.ResThenIsTry`, `LegacyTry.TryValueAgrees` and
  `LegacyTry.FailIsTryError` prove that this catch is the one those `Try` functions
  perform.

Two points where the model takes a reading of the source:
- The current tree's `Unit` type is not part of this model. If it is a struct,
  `default(Unit)` passes the `value is Unit` test. The model keeps this open, and the
  lemmas that need "an empty value has no value" assume `!k.isUnit(k.dflt)`.
- `Res.Then(Action)` (FunSharp/Res.cs:124) and `Try(Action)` (FunSharp/Try.cs:50) call
  `Utils.ToFunc`, which does not exist: FunSharp/Utils.cs declares `FunSharpUtils`. Both
  are modelled as if `FunSharpUtils.ToFunc` were meant.

## Model

| member | source | states |
|---|---|---|
| `ErrorRecord.NewError` | src/FunSharp/FunSharp/Error.cs:25-30 | the message, exception and payload are stored as given; the result equals `default(Error)` exactly when all three are null |
| `ErrorRecord.NoMessageFallback` | src/FunSharp/FunSharp/Error.cs:25-29 | omitted exception and payload are null; a null message stays null even when an exception is supplied |
| `FnUtils.HandleError` | src/FunSharp/FunSharp/FnUtils.cs:507-513 | the error carries the exception's message and the exception, with null payload, and reports an error; the handler is invoked once with it exactly when one is given |
| `FnUtils.AbsentMeansDefault` | src/FunSharp/FunSharp/FnUtils.cs:8-9 | a value has no value exactly when it is the default and the default is not a `Unit` |
| `FnUtils.HasErrorIffSomeField` | src/FunSharp/FunSharp/FnUtils.cs:11-12 | an `Error` reports an error exactly when one of its three fields is non-null |
| `FnUtils.DefaultsOfCommonTypes` | src/FunSharp/FunSharp.Tests/ResultTests.cs:10-51 | null, 0 and false count as absent and 1, true and "" as present; a `Unit` struct is present even as its own default, a `Unit` class's null is not |
| `Maybes.Of` | src/FunSharp/FunSharp/Maybe.cs:70-71 | stores the value; has a value exactly when the value passes the default rule |
| `Maybes.Empty` | src/FunSharp/FunSharp/Maybe.cs:76-77 | stores `default(T)`; has a value exactly when the default is a `Unit` |
| `Maybes.OfNullable` | src/FunSharp/FunSharp/Maybe.cs:73-74 | null gives `Empty`; a non-null value is lifted like any other |
| `Maybes.GetValueOrElse` | src/FunSharp/FunSharp/Maybe.cs:22-23 | the stored value when it has one, otherwise the fallback |
| `Maybes.Match` | src/FunSharp/FunSharp/Maybe.cs:25-26 | exactly one of `some(value)` and `none()` supplies the result, chosen by `HasValue` |
| `Maybes.Then` | src/FunSharp/FunSharp/Maybe.cs:34-35 | the step's fault escapes exactly when there is a value and the step throws; otherwise its result is lifted, and no value gives `Empty` |
| `Maybes.ThenMaybe` | src/FunSharp/FunSharp/Maybe.cs:43-44 | the step's `Maybe` (or fault) when there is a value; `Empty` otherwise |
| `Maybes.ThenDo` | src/FunSharp/FunSharp/Maybe.cs:51-58 | the action is invoked once with the value exactly when there is one; its fault escapes uncaught; otherwise the result is `Of(Unit.Create())`, which has a value; without a value the action does not run and the result is `Empty` |
| `Maybes.Select` | src/FunSharp/FunSharp/Maybe.cs:92-95 | `f` is applied to the stored value whether or not it counts as a value, and its result is lifted |
| `Maybes.SelectMany` | src/FunSharp/FunSharp/Maybe.cs:97-100 | `f` is applied to the stored value regardless of `HasValue` |
| `Maybes.SelectManyProject` | src/FunSharp/FunSharp/Maybe.cs:82-86 | no value gives `Empty` without calling `f` or the projection; a fault can escape only when there is a value (the full case analysis is `Maybes.SelectManyProjectSteps`) |
| `Maybes.GetValueOrDefaultIsStored` | src/FunSharp/FunSharp/Maybe.cs:17-23 | asking with `default(T)` as fallback always returns the stored value |
| `Maybes.MatchIsGetValueOrElse` | src/FunSharp/FunSharp/Maybe.cs:22-26 | `Match` with the identity and a constant equals `GetValueOrElse` |
| `Maybes.ThenIsThenMaybeOfLift` | src/FunSharp/FunSharp/Maybe.cs:34-44 | `Then` equals `ThenMaybe` with the step's value lifted |
| `Maybes.LeftIdentity` | src/FunSharp/FunSharp/Maybe.cs:43-44 | lifting a present value and chaining runs the step on it; lifting the default never reaches the step |
| `Maybes.RightIdentity` | src/FunSharp/FunSharp/Maybe.cs:43-44 | chaining the lifting function returns every `Maybe` unchanged |
| `Maybes.SelectManyProjectSteps` | src/FunSharp/FunSharp/Maybe.cs:82-86 | no value gives `Empty`; a fault in the inner step escapes; an inner `Maybe` without a value gives `Empty`; with values throughout, the lifted projection of both values |
| `Maybes.SelectIgnoresAbsence` | src/FunSharp/FunSharp/Maybe.cs:92-100 | on no value, `Select` applies `f` to `default(TIn)`, and `SelectMany` of the lifted `f` agrees with it |
| `Results.FromValue` | src/FunSharp/FunSharp/Result.cs:16-20 | never Error; Some exactly when the value passes the default rule |
| `Results.FromError` | src/FunSharp/FunSharp/Result.cs:22-26 | the value slot is empty; Error exactly when the error is not `default(Error)`; a default error gives the None result |
| `Results.FromNone` | src/FunSharp/FunSharp/Result.cs:28-32 | no error and an empty value; Some only if the default is a `Unit` |
| `Results.FromMaybe` | src/FunSharp/FunSharp/Result.cs:182-185 | a `Maybe` with a value gives Some of it; one without gives None |
| `Results.OfNullable` | src/FunSharp/FunSharp/Result.cs:193-194 | null gives None; a non-null value is lifted, so a present 0 is None too |
| `Results.Try` | src/FunSharp/FunSharp/FnUtils.cs:41-51 | a returned value is lifted (never Error); Error exactly when the call throws, carrying the fault, with an empty value slot; the handler is called once with that error, and only then |
| `Results.TryResult` | src/FunSharp/FunSharp/FnUtils.cs:60-70 | a returned `Result` comes back unchanged; a fault gives Error carrying it, with an empty value slot and the handler called once |
| `Results.TryApply` | src/FunSharp/FunSharp/FnUtils.cs:101-112 | as `Try`, on the one call `f(value)`: the lifted value, or Error carrying the fault with an empty value slot; the handler receives the returned error |
| `Results.TryApplyResult` | src/FunSharp/FunSharp/FnUtils.cs:123-134 | as `TryResult`, on the one call `f(value)`: the returned `Result`, or Error carrying the fault with an empty value slot; the handler receives the returned error |
| `Results.TryApplyCallsOnceWithValue` | src/FunSharp/FunSharp/FnUtils.cs:101-112 | the result depends on `f` only through `f(value)` |
| `Results.Start` | src/FunSharp/FunSharp/Result.cs:196-200 | Error exactly when the thunk throws; a value is lifted |
| `Results.StartResult` | src/FunSharp/FunSharp/Result.cs:202-203 | a returned `Result` unchanged; a fault gives Error |
| `Results.OnError` | src/FunSharp/FunSharp/Result.cs:45-51 | the receiver is returned unchanged; the callback runs with the error exactly in the Error state |
| `Results.OnSomeValue` | src/FunSharp/FunSharp/Result.cs:58-64 | the receiver is returned unchanged; the callback runs with the value exactly in the Some state |
| `Results.OnNoneValue` | src/FunSharp/FunSharp/Result.cs:71-77 | the receiver is returned unchanged; the callback runs exactly in the None state |
| `Results.GetValueOrElse` | src/FunSharp/FunSharp/Result.cs:84-85 | the value in the Some state, the fallback in Error and None |
| `Results.Match` | src/FunSharp/FunSharp/Result.cs:95-96 | the handler of the current state (Error, Some or None) supplies the result |
| `Results.MatchSuccess` | src/FunSharp/FunSharp/Result.cs:105-106 | Error goes to `error`; Some and None both go to `success(Unit)` |
| `Results.Then` | src/FunSharp/FunSharp/Result.cs:109-115 | Error keeps the same error; None gives None; on Some the result is Error exactly when the step throws, carrying the fault with an empty value slot, and otherwise it is the step's value lifted |
| `Results.ThenResult` | src/FunSharp/FunSharp/Result.cs:117-123 | Error and None propagate; on Some the step's own `Result`, or Error carrying its fault with an empty value slot |
| `Results.ErrorAbsorbs` | src/FunSharp/FunSharp/Result.cs:109-115 | after an Error, any number of further steps keep the Error state and the same error |
| `Results.NoneAbsorbs` | src/FunSharp/FunSharp/Result.cs:109-115 | after a None (default not a `Unit`), any number of further steps leave None |
| `Results.ChainAppend` | src/FunSharp/FunSharp/Result.cs:109-115 | chaining `a` then `b` is chaining `a + b` |
| `Results.FaultShortCircuits` | src/FunSharp/FunSharp/Result.cs:109-115 | a step that throws on a Some ends the whole chain in Error carrying that fault |
| `Results.LeftIdentity` | src/FunSharp/FunSharp/Result.cs:117-123 | lifting a present value and chaining is `Try(value, f)`; lifting an absent one gives None |
| `Results.OfThenGetValue` | src/FunSharp/FunSharp/Result.cs:109-115 | `Of(v).Then(f).GetValueOrElse(fb)` is `f(v)` for present `v`, a non-throwing `f` and a present result |
| `Results.ThenAssociative` | src/FunSharp/FunSharp/Result.cs:117-123 | chaining two steps equals chaining their composition, when the middle type's default is not a `Unit` |
| `Results.SelectManyProject` | src/FunSharp/FunSharp/Result.cs:214-218 | Error keeps its error and None stays None, neither calling `f` nor the projection (the Some cases are `Results.SelectManyProjectSteps`) |
| `Results.SelectManyProjectSteps` | src/FunSharp/FunSharp/Result.cs:214-218 | Error and None propagate; on Some, a fault in the inner step gives Error carrying it, an inner Error passes its error on, an inner None gives None, and an inner Some runs the projection under `Try` |
| `Results.Select` | src/FunSharp/FunSharp/Result.cs:224-230 | Error propagates; otherwise `f` runs under `Try` on the stored value |
| `Results.SelectMany` | src/FunSharp/FunSharp/Result.cs:232-238 | Error propagates; otherwise `f` runs under `Try` on the stored value |
| `Results.SelectOnNone` | src/FunSharp/FunSharp/Result.cs:224-230 | on None, `Select` calls `f` with `default(TIn)` while `Then` returns None |
| `Results.LiftingScenarios` | src/FunSharp/FunSharp.Tests/ResultTests.cs:10-51 | 0, null and false lift to None and 1 to Some; `new Error(message)` matches as that error; `new Error(null)` behaves as None |
| `Scoped.ScopeOutcome` | src/FunSharp/FunSharp/FnUtils.cs:306-310 | the `using` block: an acquisition fault is the block's fault; a successful block yields the function's own result (the full characterisation is `Scoped.ScopeSucceedsIffNoFault`) |
| `Scoped.ScopeSucceedsIffNoFault` | src/FunSharp/FunSharp/FnUtils.cs:306-310 | the block succeeds exactly when acquisition, the function and the disposal all succeed; an acquisition fault or a `Dispose` fault becomes the block's fault |
| `Scoped.RunScope` | src/FunSharp/FunSharp/FnUtils.cs:306-310 | acquire first; the function is called once, with the acquired resource, only when acquisition succeeds; a non-null resource is disposed once, after the call, and nothing else is disposed; a null one is not disposed |
| `Scoped.Using` | src/FunSharp/FunSharp/FnUtils.cs:302-311 | Error exactly when acquisition, the function or `Dispose` throws; the trace guarantees of `RunScope`, including that only the acquired resource is disposed; the handler is the last event, once, on Error only |
| `Scoped.UsingResult` | src/FunSharp/FunSharp/FnUtils.cs:320-329 | as `Using`, with the function's `Result` returned unchanged when nothing throws |
| `Chooses.Default2` | src/FunSharp/FunSharp/Choose.cs:10-12 | `default(Choose<T0, T1>)`: tag 0 and both slots at their defaults; `Chooses.DefaultIsFirstAlternative` proves it is the injection of `default(T0)` |
| `Chooses.From2v0` | src/FunSharp/FunSharp/Choose.cs:14-18 | tag 0, slot 0 holds the value, the other slot its default |
| `Chooses.From2v1` | src/FunSharp/FunSharp/Choose.cs:20-24 | tag 1, slot 1 holds the value, the other slot its default |
| `Chooses.Match2` | src/FunSharp/FunSharp/Choose.cs:34-40 | succeeds exactly for tags 0 and 1, with that tag's handler on its slot; any other tag throws `ArgumentException("Invalid index.")` |
| `Chooses.Match2RoundTrip` | src/FunSharp/FunSharp/Choose.cs:34-43 | matching an injected value gives the injected alternative's handler applied to it |
| `Chooses.Default3` | src/FunSharp/FunSharp/Choose.cs:48-51 | `default(Choose<T0, T1, T2>)`; by `Chooses.DefaultIsFirstAlternative` it matches as alternative 0 holding `default(T0)` |
| `Chooses.From3v0` | src/FunSharp/FunSharp/Choose.cs:53-57 | tag 0 and its slot set, the others at their defaults |
| `Chooses.From3v1` | src/FunSharp/FunSharp/Choose.cs:59-63 | tag 1 and its slot set, the others at their defaults |
| `Chooses.From3v2` | src/FunSharp/FunSharp/Choose.cs:65-69 | tag 2 and its slot set, the others at their defaults |
| `Chooses.Match3` | src/FunSharp/FunSharp/Choose.cs:71-81 | succeeds exactly for tags 0 to 2 with that tag's handler; any other tag throws `ArgumentException` |
| `Chooses.Match3RoundTrip` | src/FunSharp/FunSharp/Choose.cs:71-85 | each injection matches to its own handler |
| `Chooses.Default4` | src/FunSharp/FunSharp/Choose.cs:90-94 | `default(Choose<T0, …, T3>)`; by `Chooses.DefaultIsFirstAlternative` it matches as alternative 0 holding `default(T0)` |
| `Chooses.From4v0` | src/FunSharp/FunSharp/Choose.cs:96-100 | tag 0 and its slot set, the others at their defaults |
| `Chooses.From4v1` | src/FunSharp/FunSharp/Choose.cs:102-106 | tag 1 and its slot set, the others at their defaults |
| `Chooses.From4v2` | src/FunSharp/FunSharp/Choose.cs:108-112 | tag 2 and its slot set, the others at their defaults |
| `Chooses.From4v3` | src/FunSharp/FunSharp/Choose.cs:114-118 | tag 3 and its slot set, the others at their defaults |
| `Chooses.Match4` | src/FunSharp/FunSharp/Choose.cs:120-132 | succeeds exactly for tags 0 to 3 with that tag's handler; any other tag throws `ArgumentException` |
| `Chooses.Match4RoundTrip` | src/FunSharp/FunSharp/Choose.cs:120-137 | each injection matches to its own handler |
| `Chooses.Default5` | src/FunSharp/FunSharp/Choose.cs:142-147 | `default(Choose<T0, …, T4>)`; by `Chooses.DefaultIsFirstAlternative` it matches as alternative 0 holding `default(T0)` |
| `Chooses.From5v0` | src/FunSharp/FunSharp/Choose.cs:149-153 | tag 0 and its slot set, the others at their defaults |
| `Chooses.From5v1` | src/FunSharp/FunSharp/Choose.cs:155-159 | tag 1 and its slot set, the others at their defaults |
| `Chooses.From5v2` | src/FunSharp/FunSharp/Choose.cs:161-165 | tag 2 and its slot set, the others at their defaults |
| `Chooses.From5v3` | src/FunSharp/FunSharp/Choose.cs:167-171 | tag 3 and its slot set, the others at their defaults |
| `Chooses.From5v4` | src/FunSharp/FunSharp/Choose.cs:173-177 | tag 4 and its slot set, the others at their defaults |
| `Chooses.Match5` | src/FunSharp/FunSharp/Choose.cs:179-193 | succeeds exactly for tags 0 to 4 with that tag's handler; any other tag throws `ArgumentException` |
| `Chooses.Match5RoundTrip` | src/FunSharp/FunSharp/Choose.cs:179-199 | each injection matches to its own handler |
| `Chooses.DefaultIsFirstAlternative` | src/FunSharp/FunSharp/Choose.cs:10-12 | `default(Choose<…>)` is the injection of `default(T0)` and matches as alternative 0, for every arity |
| `Chooses.Choose2Scenario` | src/FunSharp/FunSharp.Tests/ChooseTests.cs:10-19 | `Choose<int, string>` from 50 matches "int", from a string matches "string" |
| `Validation.ErrorList.constructor` | src/FunSharp/FunSharp/Validation/Validate.cs:8 | a new list is empty |
| `Validation.ErrorList.Add` | src/FunSharp/FunSharp/Validation/Validate.cs:22 | appends the entry at the end |
| `Validation.ErrorList.Count` | src/FunSharp/FunSharp/Validation/Validate.cs:28 | the number of entries; zero exactly for the empty list |
| `Validation.NewValidate` | src/FunSharp/FunSharp/Validation/Validate.cs:8-10 | a builder with a fresh, empty list |
| `Validation.For` | src/FunSharp/FunSharp/Validation/Validate.cs:13-25 | returns the receiver; its list gains `(Name, message)` at the end exactly when `must(value)` is false, and is otherwise unchanged |
| `Validation.Run` | src/FunSharp/FunSharp/Validation/Validate.cs:27-28 | valid exactly when the list is empty; the result holds the builder's own list |
| `Validation.FailuresAppend` | src/FunSharp/FunSharp/Validation/Validate.cs:21-24 | the entries of consecutive rule sequences are concatenated in call order |
| `Validation.FailuresCountAndOrigin` | src/FunSharp/FunSharp.Tests/ValidateTests.cs:21-31 | one entry per failed rule, each naming a failed rule and its message; empty exactly when every rule passed |
| `Validation.CheckPerson` | src/FunSharp/FunSharp.Tests/ValidateTests.cs:21-31 | the entries are the failed rules in call order; "Rogério", aged 46 and born on or after `now`, gives two entries and an invalid result |
| `Validation.RunSharesTheList` | src/FunSharp/FunSharp/Validation/Validate.cs:88-92 | after `Run`, a `For` on a copy of the builder grows the result's `Errors` while `IsValid` stays true |
| `Nullables.ToMaybe` | src/FunSharp/FunSharp/Nullables/NullableExtensions.cs:5-6 | null gives `Empty`; a value is stored, so it has a value exactly when it passes the default rule |
| `Nullables.ToResult` | src/FunSharp/FunSharp/Nullables/NullableExtensions.cs:8-9 | never Error; null gives None; a value is lifted |
| `Nullables.Then` | src/FunSharp/FunSharp/Nullables/NullableExtensions.cs:11-13 | the step runs on any non-null value and its result is stored; null gives `Empty`; faults escape exactly from a step that ran |
| `Nullables.ThenMaybe` | src/FunSharp/FunSharp/Nullables/NullableExtensions.cs:15-17 | the step's `Maybe` unchanged for a non-null value; `Empty` for null |
| `Nullables.Match` | src/FunSharp/FunSharp/Nullables/NullableExtensions.cs:19-23 | `some(value)` for non-null, `none()` for null; throws `NullReferenceException` exactly for null without a `none` handler |
| `Nullables.ThenIsNotToMaybeThen` | src/FunSharp/FunSharp/Nullables/NullableExtensions.cs:11-13 | on a present `default(T)` the adapter runs the step, while `ToMaybe` followed by `Maybe.Then` does not |
| `Nullables.ThenAgreesWithToMaybeThen` | src/FunSharp/FunSharp/Nullables/NullableExtensions.cs:11-13 | away from the default, the adapter's `Then` equals `ToMaybe` followed by `Maybe.Then` |
| `Nullables.IntScenarios` | src/FunSharp/FunSharp.Tests/NullableTests.cs:10-73 | 100 converts to a value and null to none, for `Maybe` and `Result`; `Match` and `Then` give the tests' values; a `Maybe`-returning step on 100 gives its `Maybe` of 50, and on null no value |
| `LegacyError.NewError` | FunSharp/Error.cs:15-20 | exception and payload are stored; the message is the given one, else the exception's, and null only when both are null |
| `LegacyError.ErrorScenarios` | FunSharp.Tests/ErrorTests.cs:10-27 | an error built from an exception has its message; one built from a message has null exception and payload |
| `LegacyOpt.FromValue` | FunSharp/Opt.cs:30-35 | None exactly when the value is the default, with no `Unit` exception; exactly one flag holds |
| `LegacyOpt.FromNone` | FunSharp/Opt.cs:41-46 | None, holding the default; exactly one flag holds |
| `LegacyOpt.DefaultIsEmpty` | FunSharp/Opt.cs:30-46 | lifting the default equals the `None` constructor |
| `LegacyOpt.GetValueOrElse` | FunSharp/Opt.cs:60-61 | the fallback on None, the value otherwise |
| `LegacyOpt.OnSome` | FunSharp/Opt.cs:68-74 | the same instance; the action runs on the value exactly when `IsSome` |
| `LegacyOpt.OnNone` | FunSharp/Opt.cs:81-87 | the same instance; the action runs exactly when `IsNone` |
| `LegacyOpt.Match` | FunSharp/Opt.cs:96-102 | `some(Value)` when `IsSome`; otherwise `none(None)` or, without a handler, `default(T)` |
| `LegacyOpt.Then` | FunSharp/Opt.cs:110-113 | the step runs only when `IsSome` and its result is lifted; otherwise a None `Opt`; faults escape |
| `LegacyOpt.ThenOpt` | FunSharp/Opt.cs:121-124 | the step's `Opt` reference when `IsSome`; a null reference otherwise |
| `LegacyOpt.CallOn` | FunSharp/Opt.cs:121-124 | a member call on the `Opt` reference that `Then` returns: `NullReferenceException` on null, the member's own outcome otherwise |
| `LegacyOpt.ChainAfterNoneThrows` | FunSharp/Opt.cs:121-124 | after an `Opt`-returning `Then` on None, the next chained call throws `NullReferenceException` |
| `LegacyOpt.OptScenarios` | FunSharp.Tests/OptTests.cs:14-127 | null, 0 and false are None; `GetValueOrElse` and `Match` give the tests' values; `Opt.Empty` is None; beyond the tests, a non-null `Unit` instance is Some, by the rule at FunSharp/Opt.cs:30-35 |
| `LegacyRes.Default` | FunSharp/Res.cs:13-20 | `default(Res<T>)` is an Error holding a null `Error` |
| `LegacyRes.FromValue` | FunSharp/Res.cs:22-29 | a success; None exactly when the value is the default and not a `Unit`; exactly one of Some and None |
| `LegacyRes.FromError` | FunSharp/Res.cs:31-38 | an Error, neither Some nor None, holding the given (possibly null) error |
| `LegacyRes.FromNone` | FunSharp/Res.cs:40-47 | a success in the None state |
| `LegacyRes.FromException` | FunSharp/Res.cs:160-161 | an Error whose message is the exception's message |
| `LegacyRes.ExactlyOneState` | FunSharp/Res.cs:18-47 | in every constructed `Res`, exactly one of Error, Some and None holds |
| `LegacyRes.GetValueOrElse` | FunSharp/Res.cs:54-55 | the fallback only on Error; the stored value otherwise |
| `LegacyRes.GetValueOrElseOnNone` | FunSharp/Res.cs:54-55 | on None the result is the stored default, not the fallback |
| `LegacyRes.Match` | FunSharp/Res.cs:65-75 | error first, then Some, then `noValue`; throws `NotSupportedException` exactly on None without `noValue` |
| `LegacyRes.Caught` | FunSharp/Res.cs:90 | a value is lifted; a fault becomes an Error with the exception's message |
| `LegacyRes.Then` | FunSharp/Res.cs:84-95 | Error passes its error on; None gives None; on Some the step's value is lifted or its fault becomes Error; the result is Error exactly in those cases |
| `LegacyRes.ThenRes` | FunSharp/Res.cs:104-115 | Error and None route as in `Then`; on Some the step's `Res` or fault, uncaught |
| `LegacyRes.ThenDo` | FunSharp/Res.cs:123-124 | the action runs once exactly on Some; then Some holding a `Unit`, or Error carrying the action's fault; Error and None propagate |
| `LegacyRes.Fail` | FunSharp/Res.cs:131-140 | on Error the handler runs once with the error, and the result is that error or one built from the handler's fault; on success the result is rebuilt from `Value` |
| `LegacyRes.FailKeepsState` | FunSharp/Res.cs:131-140 | `Fail` keeps the Error, Some or None state; a handler fault's error carries its message |
| `LegacyRes.FailOnConstructed` | FunSharp/Res.cs:131-140 | `Fail` keeps the state of every constructed `Res` |
| `LegacyRes.ThenScenario` | FunSharp.Tests/ThenTests.cs:14-31 | `Res.Of(256).Then(f)` with a non-throwing `f` and a non-default result is Some, and `Match` returns `f(256)` |
| `LegacyTryFunctions.CaughtError` | FunSharp/TryFunctions.cs:27-29 | the caught error holds the exception, `errorMessage ?? ex.Message` and the payload |
| `LegacyTryFunctions.MapError` | FunSharp/TryFunctions.cs:30-33 | without `errFunction` the error itself; with it, whatever it returns, and its fault escapes |
| `LegacyTryFunctions.Try` | FunSharp/TryFunctions.cs:17-35 | a value is lifted; a fault is caught and mapped; the result throws only through `errFunction`; a caught fault gives the Error state |
| `LegacyTryFunctions.TryRes` | FunSharp/TryFunctions.cs:46-64 | a returned `Res` unchanged; a fault is caught and mapped |
| `LegacyTryFunctions.NoMapperNeverThrows` | FunSharp/TryFunctions.cs:27-31 | without `errFunction` a fault always gives an Error with the exception, custom message and payload |
| `LegacyTryFunctions.ResThenIsTry` | FunSharp/Res.cs:84-95 | `Res.Then` on Some is this `Try` with no custom arguments |
| `LegacyTryFunctions.CustomMessageScenario` | FunSharp.Tests/TryTests.cs:10-24 | a fault with a custom message gives an Error, neither Some nor None, whose message `Match` returns |
| `LegacyTry.TryError` | FunSharp/Try.cs:12-22 | the function's `Error`; on a fault an error with the exception and its message |
| `LegacyTry.TryValue` | FunSharp/Try.cs:31-41 | a value is lifted; a fault gives Error with `errorMessage ?? ex.Message` |
| `LegacyTry.TryAction` | FunSharp/Try.cs:49-50 | a completed action gives Some holding a `Unit`; a fault gives Error |
| `LegacyTry.TryValueAgrees` | FunSharp/Try.cs:31-41 | both `TryFunctions` classes give the same result for a value-returning function with only a message |
| `LegacyTry.FailIsTryError` | FunSharp/Res.cs:131-140 | `Res.Fail` on Error is `Try(Func<Error>)` around "run the handler, return the error" |
| `LegacyNullables.ToOptional` | FunSharp/Nullables/NullableExtensions.cs:13-15 | null gives None; a value is lifted; Some exactly for a non-null, non-default value |
| `LegacyNullables.Then` | FunSharp/Nullables/NullableExtensions.cs:25-28 | the step runs on a non-null value; a null input gives a non-null `default(U)` |
| `LegacyNullables.ThenOnNullIsNotNull` | FunSharp/Nullables/NullableExtensions.cs:25-28 | `Then` on null never yields null; for `int` it yields 0 |
| `LegacyNullables.ThenIntended` | FunSharp/Nullables/NullableExtensions.cs:25-28 | null gives null, a value gives the step's result; the result is null exactly for a null input |
| `LegacyNullables.ThenNullable` | FunSharp/Nullables/NullableExtensions.cs:38-41 | the step's nullable unchanged for a value; null for null |
| `LegacyNullables.ThenIntendedIsThenNullable` | FunSharp/Nullables/NullableExtensions.cs:25-41 | the intended `Then` is `ThenNullable` of the lifted step, and it agrees with `Then` as written exactly on non-null input |
| `LegacyNullables.Match` | FunSharp/Nullables/NullableExtensions.cs:52-58 | `some(value)` for non-null, `none(None)` for null; throws `NullReferenceException` exactly for null without a handler |
| `LegacyNullables.ToOptionalScenarios` | FunSharp.Tests/Nullables/NullableTests.cs:11-66 | 95 converts to Some and reads back; null converts to None; `Match` on null picks `none` |

## Left out

- Async code is not modelled. This covers `TryAsync`, the async `Using` overloads, the async `Then` of `Result`, and the older `TryAsync`. They await and then repeat the synchronous branching.
- Task plumbing is not modelled: both `TaskExtensions` files, with `FireAndForget`, `Retry` and `WithTimeout`. It is timing and concurrency.
- FunSharp/MiscExtensions.cs is not modelled. It holds adapters to `Task` and Rx `IObservable`, foreign libraries.
- The benchmark program is not modelled.
- The marker types `Unit` and `None` are single-constructor datatypes, not models of their files.
- `Maybe.Select<A, B, C>` and `Result.Select<A, B, C>` are not modelled separately: each is `Then` with the same function.
- `Combine`, `GetValueOrMatch` and `OnSuccess` are not modelled. Only a test file calls them, and no source file declares them.
- Equality is Dafny's `==`. This stands in for `EqualityComparer<T>.Default`, user-defined `Equals` overrides and the runtime `GetType() != typeof(Unit)` test.
- Exception types and message texts are opaque values. Only the three exceptions the library raises itself are spelled out.
- Faults thrown by `Match` handlers, tap actions (`OnError`, `OnSomeValue`, `OnNoneValue`, `OnSome`, `OnNone`) and error handlers are not modelled. These callbacks are pure functions here.
- `Results.Try`: a fault thrown by `errorHandler` itself would escape the catch block. The model does not represent it.
- `Validation.For`: that `must` is evaluated exactly once is not stated. `must` is a pure function in the model, so it cannot observe how often it is called.
- `default(Validate)`, whose list reference is null, is not modelled. Calling `For` or `Run` on it throws.
- `Validation.CheckPerson`: `string.IsNullOrWhiteSpace` is approximated by `IsBlank`. `IsBlank` knows space, tab, newline and carriage return only, and the clock reading `DateTime.Now` is a parameter.
- The `Using` resource type is generic, and its `Dispose` is a parameter returning an `Outcome`.
- `Results.ThenAssociative` and `Results.NoneAbsorbs` require that `default` is not a `Unit`. Without that, the None produced by a `Then` counts as a value under the current rule, and both laws fail.

## Findings

| source | as written | input that shows it | evidently intended | confidence | as-written member | corrected member |
|---|---|---|---|---|---|---|
| FunSharp/Nullables/NullableExtensions.cs:25-28 | `nullable.HasValue ? function(nullable.Value) : default` takes the type `U` of its first branch, so on null it returns `(U?)default(U)`, a non-null value | `((int?)null).Then(x => x * 2)` gives 0, not null | a null input gives a null `U?`, as the method's documentation ("returns a new Nullable") and the sibling overload at lines 38-41 do | not executed; follows from C#'s typing of `default` in a conditional | `LegacyNullables.Then` (`LegacyNullables.ThenOnNullIsNotNull`) | `LegacyNullables.ThenIntended` (`LegacyNullables.ThenIntendedIsThenNullable`) |
