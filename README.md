# abort-utils combinators, modelled in Dafny

A model of the core of `abort-utils`, a small TypeScript library of helpers around the
platform's `AbortSignal` / `AbortController`:

- `anyAborted(signals)` returns a signal that aborts as soon as any input aborts, with that
  input's reason;
- `allAborted(signals)` returns a signal that aborts once every input has aborted;
- `AbortError` is the error used when a signal aborts without a reason, and `isAbortError`
  recognises it;
- `throwIfAborted(signal)` throws the reason of an aborted signal.

Modules:

- `AbortErrors` (`abort_error.dfy`): the JavaScript values a reason can be (`Value`), the
  AbortError constants, `NewAbortError`, `IsAbortError`, the `reason ?? new AbortError()`
  fallback `OrAbortError`, and `SignalView`, the read-only `aborted`/`reason` shape every
  signal offers.
- `Guard` (`throw_if_aborted.dfy`): `ThrowIfAborted`, a function from a signal's view to how
  the call completes (normally, or by throwing a value).
- `Signals` (`signals.dfy`): a minimal signal record (aborted flag, reason, listener
  registry), the one-shot `Abort`, `addEventListener` (which ignores a listener already
  registered), `removeEventListener`, and facts about registering and removing one listener
  over an array of signals.
- `Combinators` (`any_all_aborted.dfy`): one class per combinator; an object models one call.
  `inputs` is an array of every signal in play, indexed by identity, and `args` is the
  call's argument array as indices into it, so that the same signal may be passed twice.
  `derived` is the signal of the call's own controller, and `Handler` in a registry is the
  call's `handleAbort` closure. The constructor runs the call. `AbortInput(i, r)` is the
  only way the world moves on afterwards: input `i`'s controller aborts with reason `r` and
  its abort event is delivered, which runs the handler if it is registered on `i`. Both
  listener options are modelled: `once` unregisters the handler before it runs, and
  `signal: controller.signal` unregisters it everywhere once the derived signal aborts. The
  explicit removal loops are modelled as well.
- `Scenarios` (`scenarios.dfy`): small client runs, each proved from the classes' contracts
  alone.

Each class keeps an invariant (`AnyInvariant`, `AllInvariant`) that every step preserves:

- `anyAborted`: the derived signal is aborted exactly when some argument is, with the reason
  of an aborted argument; until then the handler sits exactly on the arguments, and
  afterwards on no signal.
- `allAborted`: the derived signal is aborted exactly when every argument is. Until then the
  handler sits exactly on the live-at-call arguments that have not fired, and the fired set
  is exactly those that have aborted since. Afterwards no handler is left, and the reason is
  the aggregate (when nothing was live at call time) or missing.

## Model

| member | source | states |
|---|---|---|
| AbortErrors.NewAbortError | src/AbortError.ts:41-47 | a new AbortError is an Error with name "AbortError", code "ABORT_ERR", message "The operation was aborted", and is recognised by `IsAbortError` |
| AbortErrors.IsAbortError | src/AbortError.ts:49-51 | true only on Error values; on an Error, true exactly when its name is "AbortError"; false (and defined) on every other value |
| AbortErrors.OrAbortError | src/throwIfAborted.ts:9 | `reason ?? new AbortError()`: never nullish; a non-nullish reason is kept; undefined or null becomes a fresh AbortError |
| Guard.ThrowIfAborted | src/throwIfAborted.ts:7-11 | completes normally exactly when the signal is not aborted; otherwise throws the reason itself, or a fresh AbortError when the reason is missing; it only reads the signal's view |
| Signals.Abort | src/anyAllAborted.ts:16 | `controller.abort(reason)`: the signal ends aborted with its listeners kept; the first abort sets the reason, a later one changes nothing |
| Signals.AbortOnce | src/anyAllAborted.ts:16 | a second abort, with any reason, leaves the first reason in place |
| Signals.AddListener | src/anyAllAborted.ts:29-32 | registering a listener makes it present exactly once; one that is already registered leaves the registry as it was; other listeners are untouched |
| Signals.Without | src/anyAllAborted.ts:20 | removing a listener leaves none of it and keeps every other listener, as often as it occurs |
| Signals.AddThenRemove | src/anyAllAborted.ts:20 | removing a listener right after registering it restores the registry |
| Signals.AbortedOnlyCases | src/anyAllAborted.ts:15-21 | however an abort event ends, only the aborted signal's flag and reason change |
| Combinators.FirstAborted | src/anyAllAborted.ts:24-27 | the scan's stopping point: every earlier argument is live, the one there is aborted, and it reaches the end exactly when no argument is aborted |
| Combinators.NotAborted | src/anyAllAborted.ts:56 | the filter keeps exactly the arguments that are not aborted, and is empty exactly when every argument is aborted |
| Combinators.NotAbortedCounts | src/anyAllAborted.ts:56 | the filter keeps each live argument as often as it occurs in the arguments, duplicates included, and drops each aborted one |
| Combinators.AggregateReason | src/anyAllAborted.ts:48-54 | an AggregateError (not an AbortError) with one entry per argument, in order: its reason, or a fresh AbortError where it is missing |
| Combinators.ReasonsFrame | src/anyAllAborted.ts:51 | two worlds that agree on every argument's reason give the same aggregate, whatever the flags, the listeners and the other signals |
| Combinators.AllFiredExactly | src/anyAllAborted.ts:64 | as long as only live arguments fire, the corrected test holds exactly when every distinct live argument has fired |
| Combinators.ElementsSize | src/anyAllAborted.ts:64 | an argument list has at most as many distinct signals as entries, and exactly as many when there are no duplicates |
| Combinators.AsWrittenSound | src/anyAllAborted.ts:64 | the test as written never fires early, and agrees with the corrected one when there are no duplicate arguments |
| Combinators.AsWrittenMissesDuplicate | src/anyAllAborted.ts:56-64 | for arguments `[s, s]` with `s` live, the filter keeps `[s, s]`; once `s` has fired every live argument has fired, yet the test as written is false |
| Combinators.UndoAddOn | src/anyAllAborted.ts:19-21 | removing the handler from every signal after registering it on some leaves every signal as it was |
| Combinators.AnyStarts | src/anyAllAborted.ts:7-36 | each outcome of `anyAborted`'s setup meets the call's invariant |
| Combinators.AnyHandlerStep | src/anyAllAborted.ts:15-21 | when the handler runs for a live argument, the derived signal takes that argument's reason, and no handler is left anywhere |
| Combinators.AnyQuietStep | src/anyAllAborted.ts:13-36 | an input without the handler aborting keeps the invariant |
| Combinators.AnyAborted.constructor | src/anyAllAborted.ts:6-37 | no arguments: throws the TypeError; one argument: returns it and changes nothing; otherwise returns the derived signal, which, if some argument is already aborted, is aborted with the first one's reason, leaving no handler, and otherwise is live with the handler on every argument |
| Combinators.AnyAborted.Start | src/anyAllAborted.ts:13-34 | the scan after the length checks: the state of the constructor's last case, and the invariant |
| Combinators.AnyAborted.Scan | src/anyAllAborted.ts:24-34 | the loop stops at the first aborted argument, having registered the handler on every argument before it |
| Combinators.AnyAborted.HandleAbort | src/anyAllAborted.ts:15-22 | the derived signal is aborted with the firing signal's reason (unless already aborted), and the handler is removed from every signal |
| Combinators.AnyAborted.AbortInput | src/anyAllAborted.ts:15-34 | an abort event keeps the invariant, and gives the exact new state: a derived, not yet aborted signal with a live argument firing aborts with that reason; once aborted it never changes; no other signal's flag or reason changes |
| Combinators.AnyAborted.View | src/anyAllAborted.ts:36 | the returned signal is aborted exactly when some argument is, and then carries the reason of an aborted argument |
| Combinators.AllStartsAborted | src/anyAllAborted.ts:56-58 | with no live argument, the derived signal aborted with the aggregate meets the invariant |
| Combinators.AllStartsWaiting | src/anyAllAborted.ts:60-78 | with some live argument, registering the handler on the live arguments meets the invariant with nothing fired |
| Combinators.AllHandlerFacts | src/anyAllAborted.ts:61-62 | the handler only ever runs for a live-at-call argument that has not fired, while the derived signal is live |
| Combinators.AllHandlerCompletes | src/anyAllAborted.ts:64-70 | when the last live argument fires, the derived signal aborts without a reason and the invariant holds with no handler left |
| Combinators.AllHandlerWaits | src/anyAllAborted.ts:61-64 | when another live argument fires while others are still live, the derived signal stays live and the invariant holds |
| Combinators.StillWaiting | src/anyAllAborted.ts:61-64 | after such a firing, some argument is still live and the handler sits exactly on the live arguments that have not fired |
| Combinators.AllQuietStep | src/anyAllAborted.ts:42-82 | an input without the handler aborting keeps the invariant, including the aggregate reason |
| Combinators.AllAborted.constructor | src/anyAllAborted.ts:42-82 | one argument: returns it and changes nothing; otherwise the filter of live arguments is taken; with none (including no arguments at all), the derived signal is aborted with the aggregate reason; otherwise it is live, nothing has fired, and the handler is on every live argument |
| Combinators.AllAborted.Register | src/anyAllAborted.ts:73-78 | the loop registers the handler on every live-at-call argument |
| Combinators.AllAborted.HandleAbort | src/anyAllAborted.ts:61-71 | the firing signal joins the fired set; once every distinct live argument has fired, the derived signal aborts without a reason and the handler is removed everywhere; otherwise nothing else changes |
| Combinators.AllAborted.AbortInput | src/anyAllAborted.ts:61-78 | an abort event keeps the invariant, and gives the exact new state, including the fired set; once aborted the derived signal never changes; no other signal's flag or reason changes |
| Combinators.AllAborted.View | src/anyAllAborted.ts:81 | the returned signal is aborted exactly when every argument is; its reason is the aggregate when nothing was live at call time, and missing otherwise |
| Scenarios.AnyTakesPreAbortedReason | src/anyAllAborted.ts:24-27 | `anyAborted([a, b])` with `a` already aborted returns a signal that is aborted with `a`'s reason |
| Scenarios.AnyFirstFiringWins | src/anyAllAborted.ts:15-21 | when `b` fires and then `a`, the derived signal keeps `b`'s reason |
| Scenarios.AllDuplicateArgument | src/anyAllAborted.ts:60-70 | with the corrected test, `allAborted([s, s])` aborts once `s` aborts |
| Scenarios.GuardOnAnyAborted | src/throwIfAborted.ts:7-11 | `throwIfAborted` on an `anyAborted` signal whose input aborted without a reason throws an AbortError |

## Left out

- `src/rejectOnAbort.ts` and `src/timeout.ts` are not part of this model: they are Promise
  and timer plumbing. Their only logic, `reason ?? new AbortError()`, is `OrAbortError`.
- The platform's default reason (a `DOMException`) when `abort()` gets no reason is not
  modelled. A missing reason stays `Undefined`, so `allAborted`'s derived signal ends with
  reason `Undefined` on the listener path.
- The object identity of Errors is not modelled. All fresh AbortErrors are equal values,
  and `instanceof Error` is the `Error` constructor of `Value`.
- Listeners registered by anyone else are kept in the registries but never run. Each model
  instance holds one combinator call, and the precondition that its handler is registered
  nowhere yet stands for the closure being new.
- Event-loop turns and concurrent delivery are not modelled. One `AbortInput` delivers one
  abort event, synchronously and completely.
- The TypeScript overloads of `addEventListener`/`removeEventListener`, the options object
  and `this`-binding through `.call` are represented by the `Handler` tag and explicit
  removal.
- JavaScript numbers are modelled as unbounded integers. The library does no arithmetic on
  them.
- `anyAborted`'s reason: the handler calls `controller.abort(this.reason)` (src/anyAllAborted.ts:16),
  so an input aborted without a reason gives the derived signal no reason either; there is no
  AbortError fallback on this path, and the model follows the code.
- Combinators.AllAborted: the class uses the corrected completion test `AllFired`, not the
  one as written (see Findings).

## Findings

| source | as written | input that shows it | evidently intended | confidence | as-written member | corrected member |
|---|---|---|---|---|---|---|
| src/anyAllAborted.ts:64 | `aborted.size === notAborted.length` compares the number of distinct fired signals with the number of live arguments, duplicates counted | `allAborted([s, s])` with `s` live: the handler is registered once, because `addEventListener` ignores a repeated registration. When `s` aborts the Set holds one signal, `1 !== 2`, and the derived signal never aborts | abort once every distinct live argument has fired: compare with the number of distinct signals in `notAborted` | medium, not executed | Combinators.AllFiredAsWritten | Combinators.AllFired |
