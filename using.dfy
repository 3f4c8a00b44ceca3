/** The synchronous `FnUtils.Using` overloads (src/FunSharp/FunSharp/FnUtils.cs): a
    functional `using` block. Inside a `Try`, the resource is acquired, the function runs
    on it, and the `using` statement disposes it whether the function returned or threw. */
module Scoped {
  import opened DotNet
  import opened ErrorRecord
  import Results

  /** What happens during one `Using` call, in order. */
  datatype Event<D> =
    | Acquire                      // `disposable()` is called
    | Call(arg: Nullable<D>)       // `function(d)` is called
    | Dispose(resource: D)         // `d.Dispose()` is called
    | Handle(error: Error)         // the error handler is called

  /** Number of `Call` events. */
  function Calls<D>(trace: seq<Event<D>>): nat {
    if trace == [] then 0 else (if trace[0].Call? then 1 else 0) + Calls(trace[1..])
  }

  /** Number of `Dispose` events. */
  function Disposals<D>(trace: seq<Event<D>>): nat {
    if trace == [] then 0 else (if trace[0].Dispose? then 1 else 0) + Disposals(trace[1..])
  }

  /** Every disposal comes after every call of the function. */
  predicate DisposedAfterCall<D>(trace: seq<Event<D>>) {
    forall i, j :: 0 <= i < |trace| && 0 <= j < |trace| && trace[i].Call? && trace[j].Dispose? ==> i < j
  }

  /** The outcome of the block `{ using var d = disposable(); return function(d); }`:
      `acquire` is what `disposable()` produced; a null resource is not disposed; a fault
      from `Dispose` replaces whatever the function produced, value or fault. */
  function ScopeOutcome<D, Y>(acquire: Outcome<Nullable<D>>, body: Nullable<D> -> Outcome<Y>,
                              dispose: D -> Outcome<()>): (o: Outcome<Y>)
    ensures acquire.Throw? ==> o == Throw(acquire.exception)
    ensures o.Ok? ==> acquire.Ok? && o == body(acquire.value)
  {
    match acquire
    case Throw(ex) => Throw(ex)
    case Ok(d) =>
      if d.NonNull? && dispose(d.value).Throw? then Throw(dispose(d.value).exception)
      else body(d)
  }

  /** The block body succeeds exactly when acquisition, the function and the disposal all
      succeed, and then it yields the function's value. */
  lemma ScopeSucceedsIffNoFault<D, Y>(acquire: Outcome<Nullable<D>>, body: Nullable<D> -> Outcome<Y>,
                                      dispose: D -> Outcome<()>)
    ensures ScopeOutcome(acquire, body, dispose).Ok? <==>
              acquire.Ok? && body(acquire.value).Ok? &&
              (acquire.value.NonNull? ==> dispose(acquire.value.value).Ok?)
    ensures ScopeOutcome(acquire, body, dispose).Ok? ==>
              ScopeOutcome(acquire, body, dispose) == body(acquire.value)
    ensures acquire.Throw? ==> ScopeOutcome(acquire, body, dispose) == Throw(acquire.exception)
    ensures acquire.Ok? && acquire.value.NonNull? && dispose(acquire.value.value).Throw? ==>
              ScopeOutcome(acquire, body, dispose) == Throw(dispose(acquire.value.value).exception)
  {
  }

  /** Runs the block and records what it does. */
  method RunScope<D, Y>(acquire: Outcome<Nullable<D>>, body: Nullable<D> -> Outcome<Y>,
                        dispose: D -> Outcome<()>) returns (block: Outcome<Y>, trace: seq<Event<D>>)
    ensures block == ScopeOutcome(acquire, body, dispose)
    ensures |trace| > 0 && trace[0] == Acquire
    ensures acquire.Throw? ==> Calls(trace) == 0 && Disposals(trace) == 0
    ensures acquire.Ok? ==> Calls(trace) == 1 && |trace| > 1 && trace[1] == Call(acquire.value)
    ensures acquire.Ok? && acquire.value.NonNull? ==>
              Disposals(trace) == 1 && trace[|trace| - 1] == Dispose(acquire.value.value)
    ensures acquire.Ok? && acquire.value.Null? ==> Disposals(trace) == 0
    ensures DisposedAfterCall(trace)
    ensures forall e <- trace :: e.Dispose? ==> acquire.Ok? && acquire.value.NonNull? && e.resource == acquire.value.value
    ensures forall e <- trace :: !e.Handle?
  {
    trace := [Acquire];
    assert trace[1..] == [];
    match acquire {
      case Throw(ex) =>
        block := Throw(ex);
      case Ok(d) =>
        CountsOfAppend(trace, Call(d));
        trace := trace + [Call(d)];
        var result := body(d);
        block := result;
        if d.NonNull? {
          CountsOfAppend(trace, Dispose(d.value));
          trace := trace + [Dispose(d.value)];
          var disposed := dispose(d.value);
          if disposed.Throw? {
            block := Throw(disposed.exception);
          }
        }
    }
  }

  /** `Using(disposable, Func<TDisp, T> function, errorHandler)`: the block's value lifted,
      or Error for a fault in acquisition, in the function or in `Dispose`; the handler is
      the last thing called, once, and only on Error. */
  method Using<D, X(==)>(k: TypeInfo<X>, acquire: Outcome<Nullable<D>>, body: Nullable<D> -> Outcome<X>,
                         dispose: D -> Outcome<()>, hasHandler: bool)
    returns (r: Results.Result<X>, trace: seq<Event<D>>)
    ensures r == Results.Try(k, ScopeOutcome(acquire, body, dispose), hasHandler).result
    ensures Results.StateOf(k, r) == Results.ErrorState <==> ScopeOutcome(acquire, body, dispose).Throw?
    ensures |trace| > 0 && trace[0] == Acquire
    ensures acquire.Throw? ==> Calls(trace) == 0 && Disposals(trace) == 0
    ensures acquire.Ok? ==> Calls(trace) == 1 && |trace| > 1 && trace[1] == Call(acquire.value)
    ensures acquire.Ok? && acquire.value.NonNull? ==> Disposals(trace) == 1
    ensures acquire.Ok? && acquire.value.Null? ==> Disposals(trace) == 0
    ensures DisposedAfterCall(trace)
    ensures forall e <- trace :: e.Dispose? ==> acquire.Ok? && acquire.value.NonNull? && e.resource == acquire.value.value
    ensures hasHandler && Results.StateOf(k, r) == Results.ErrorState ==> trace[|trace| - 1] == Handle(r.error)
    ensures !(hasHandler && Results.StateOf(k, r) == Results.ErrorState) ==> forall e <- trace :: !e.Handle?
  {
    var block;
    block, trace := RunScope(acquire, body, dispose);
    var t := Results.Try(k, block, hasHandler);
    r := t.result;
    trace := Handled(trace, t.calls);
  }

  /** `Using(disposable, Func<TDisp, Result<T>> function, errorHandler)`: the function's own
      `Result` comes back unchanged when nothing throws. */
  method UsingResult<D, X(==)>(k: TypeInfo<X>, acquire: Outcome<Nullable<D>>,
                               body: Nullable<D> -> Outcome<Results.Result<X>>,
                               dispose: D -> Outcome<()>, hasHandler: bool)
    returns (r: Results.Result<X>, trace: seq<Event<D>>)
    ensures r == Results.TryResult(k, ScopeOutcome(acquire, body, dispose), hasHandler).result
    ensures ScopeOutcome(acquire, body, dispose).Throw? ==> Results.StateOf(k, r) == Results.ErrorState
    ensures |trace| > 0 && trace[0] == Acquire
    ensures acquire.Throw? ==> Calls(trace) == 0 && Disposals(trace) == 0
    ensures acquire.Ok? ==> Calls(trace) == 1 && |trace| > 1 && trace[1] == Call(acquire.value)
    ensures acquire.Ok? && acquire.value.NonNull? ==> Disposals(trace) == 1
    ensures acquire.Ok? && acquire.value.Null? ==> Disposals(trace) == 0
    ensures DisposedAfterCall(trace)
    ensures forall e <- trace :: e.Dispose? ==> acquire.Ok? && acquire.value.NonNull? && e.resource == acquire.value.value
    ensures hasHandler && ScopeOutcome(acquire, body, dispose).Throw? ==> trace[|trace| - 1] == Handle(r.error)
    ensures !(hasHandler && ScopeOutcome(acquire, body, dispose).Throw?) ==> forall e <- trace :: !e.Handle?
  {
    var block;
    block, trace := RunScope(acquire, body, dispose);
    var t := Results.TryResult(k, block, hasHandler);
    r := t.result;
    trace := Handled(trace, t.calls);
  }

  /** Appends the error handler's invocations to a block's trace. */
  function Handled<D>(trace: seq<Event<D>>, handled: seq<Error>): (t: seq<Event<D>>)
    requires |handled| <= 1
    requires forall e <- trace :: !e.Handle?
    ensures Calls(t) == Calls(trace) && Disposals(t) == Disposals(trace)
    ensures DisposedAfterCall(trace) ==> DisposedAfterCall(t)
    ensures |t| == |trace| + |handled| && t[..|trace|] == trace
    ensures handled == [] ==> t == trace
    ensures handled != [] ==> t[|t| - 1] == Handle(handled[0])
    ensures forall e <- t :: e.Handle? ==> e.error in handled
    ensures forall e <- t :: e in trace || e.Handle?
  {
    if handled == [] then trace
    else
      CountsOfAppend(trace, Handle(handled[0]));
      trace + [Handle(handled[0])]
  }

  /** Appending one event adds one to the count of its kind and nothing to the other. */
  lemma {:induction false} CountsOfAppend<D>(trace: seq<Event<D>>, e: Event<D>)
    ensures Calls(trace + [e]) == Calls(trace) + (if e.Call? then 1 else 0)
    ensures Disposals(trace + [e]) == Disposals(trace) + (if e.Dispose? then 1 else 0)
    decreases |trace|
  {
    if trace == [] {
      assert [] + [e] == [e];
    } else {
      assert (trace + [e])[1..] == trace[1..] + [e];
      CountsOfAppend(trace[1..], e);
    }
  }
}
