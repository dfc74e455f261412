/** The values a signal can carry as its abort reason, the AbortError used as the
    fallback reason, the `isAbortError` predicate, and the read-only shape
    (`aborted`, `reason`) every abort signal offers its consumers. */
module AbortErrors {

  /** A JavaScript value as far as this library looks at it. `Undefined` is
      also how a missing reason is represented. Every `Error` instance
      (including subclasses such as AbortError, TypeError and AggregateError)
      is an `Error` carrying its `name`, `message` and `code` properties and,
      for an AggregateError, the wrapped `errors`; any other object is an
      `Object`, which may well have a `name` property of its own (`nameProperty`). */
  datatype Value =
    | Undefined
    | Null
    | Number(n: int)
    | Text(s: string)
    | Object(id: nat, nameProperty: Value)
    | Error(name: string, message: string, code: Value, errors: seq<Value>)

  const AbortErrorName := "AbortError"
  const AbortErrorCode := "ABORT_ERR"
  const AbortErrorMessage := "The operation was aborted"

  /** `new AbortError()`: an Error whose fields are fixed by its class. All
      instances are equal as values; object identity is not modelled. */
  function NewAbortError(): (e: Value)
    ensures e.Error? && e.errors == []
    ensures e.name == "AbortError" && e.code == Text("ABORT_ERR")
    ensures e.message == "The operation was aborted"
    ensures IsAbortError(e)
  {
    Error(AbortErrorName, AbortErrorMessage, Text(AbortErrorCode), [])
  }

  /** `isAbortError(error)`: `error instanceof Error && error.name === "AbortError"`.
      Total: it is defined, and false, on every value that is not an Error. */
  predicate IsAbortError(v: Value)
    ensures IsAbortError(v) ==> v.Error?
    ensures v.Error? ==> (IsAbortError(v) <==> v.name == "AbortError")
  {
    match v
    case Error(name, _, _, _) => name == AbortErrorName
    case _ => false
  }

  /** The values `??` replaces by its right operand. */
  predicate Nullish(v: Value)
  {
    v.Undefined? || v.Null?
  }

  /** `reason ?? new AbortError()`, the fallback every helper of the library
      applies to a signal's reason. */
  function OrAbortError(reason: Value): (r: Value)
    ensures !Nullish(r)
    ensures !Nullish(reason) ==> r == reason
    ensures Nullish(reason) ==> r == NewAbortError() && IsAbortError(r)
  {
    if Nullish(reason) then NewAbortError() else reason
  }

  /** What a consumer of an abort signal can observe: both fields are read-only. */
  datatype SignalView = SignalView(aborted: bool, reason: Value)
}
