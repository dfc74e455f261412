/** Client runs of the combinators, each built only from their contracts. */
module Scenarios {
  import opened AbortErrors
  import opened Signals
  import opened Combinators
  import Guard

  /** `anyAborted([a, b])` with `a` already aborted with `reason`: the result
      is aborted with that reason as soon as the call returns. */
  method AnyTakesPreAbortedReason(reason: Value) returns (v: SignalView)
    ensures v == SignalView(true, reason)
  {
    var inputs := new SignalRecord[2](_ => Fresh);
    inputs[0] := Abort(inputs[0], reason);
    var any := new AnyAborted(inputs, [0, 1]);
    v := any.View();
  }

  /** `anyAborted([a, b])` over live signals: `b` fires first with `first`,
      then `a` with `second`; the result keeps `first`. */
  method AnyFirstFiringWins(first: Value, second: Value) returns (v: SignalView)
    ensures v == SignalView(true, first)
  {
    var inputs := new SignalRecord[2](_ => Fresh);
    var any := new AnyAborted(inputs, [0, 1]);
    assert Handler in inputs[1].listeners;
    any.AbortInput(1, first);
    assert any.derived.View() == SignalView(true, first);
    any.AbortInput(0, second);
    v := any.View();
  }

  /** `allAborted([s, s])` over a live `s`: one abort of `s` aborts the result. */
  method AllDuplicateArgument() returns (v: SignalView)
    ensures v.aborted
  {
    var inputs := new SignalRecord[1](_ => Fresh);
    var all := new AllAborted(inputs, [0, 0]);
    all.AbortInput(0, Undefined);
    v := all.View();
  }

  /** `throwIfAborted(anyAborted([a, b]))` once `a` aborted without a
      reason: the guard throws a fresh AbortError. */
  method GuardOnAnyAborted() returns (c: Guard.Completion)
    ensures c.Throw? && IsAbortError(c.thrown)
  {
    var inputs := new SignalRecord[2](_ => Fresh);
    var any := new AnyAborted(inputs, [0, 1]);
    assert !any.derived.aborted && !inputs[0].aborted;
    any.AbortInput(0, Undefined);
    var v := any.View();
    c := Guard.ThrowIfAborted(v);
  }
}
