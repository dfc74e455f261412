/** The synchronous guard `throwIfAborted`. */
module Guard {
  import opened AbortErrors

  /** How a call completes: normally, or by throwing a value. */
  datatype Completion = Normal | Throw(thrown: Value)

  /** `throwIfAborted(signal)`: completes normally on a signal that is not
      aborted, and otherwise throws the signal's reason or, when that is
      missing, a fresh AbortError. It takes the signal's read-only view, so it
      can neither change the signal nor register a listener on it. */
  function ThrowIfAborted(signal: SignalView): (c: Completion)
    ensures c.Normal? <==> !signal.aborted
    ensures c.Throw? ==> !Nullish(c.thrown)
    ensures signal.aborted && !Nullish(signal.reason) ==> c == Throw(signal.reason)
    ensures signal.aborted && Nullish(signal.reason) ==> c == Throw(NewAbortError())
  {
    if signal.aborted then Throw(OrAbortError(signal.reason)) else Normal
  }
}
