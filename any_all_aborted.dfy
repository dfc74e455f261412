/** The combinators `anyAborted` and `allAborted`. Each class models one call:
    `inputs` holds every signal in play, indexed by identity, and `args` is the
    argument array as references into `inputs` (the same signal may appear
    twice). `derived` is the signal of the call's own AbortController, and
    `Handler` in a registry stands for this call's `handleAbort` closure.
    `AbortInput(i, r)` is the only way the world moves on: the controller of
    input `i` aborts with reason `r`, and the event is delivered. */
module Combinators {
  import opened AbortErrors
  import opened Signals

  /** What a call hands back: one of its own arguments, the derived signal, or
      a thrown error. */
  datatype Returned = Input(index: nat) | Derived | Threw(error: Value)

  /** `new TypeError("No signals provided to anyAborted")`. */
  const NoSignalsError := Error("TypeError", "No signals provided to anyAborted", Undefined, [])

  predicate InRange(args: seq<nat>, n: nat)
  {
    forall k :: 0 <= k < |args| ==> args[k] < n
  }

  predicate SomeAborted(w: seq<SignalRecord>, args: seq<nat>)
    requires InRange(args, |w|)
  {
    exists k :: 0 <= k < |args| && w[args[k]].aborted
  }

  predicate EveryAborted(w: seq<SignalRecord>, args: seq<nat>)
    requires InRange(args, |w|)
  {
    forall k :: 0 <= k < |args| ==> w[args[k]].aborted
  }

  /** Where `anyAborted`'s scan over its arguments stops: the position of the
      first argument that is already aborted, or `|args|` when none is. */
  function FirstAborted(w: seq<SignalRecord>, args: seq<nat>): (k: nat)
    requires InRange(args, |w|)
    ensures k <= |args|
    ensures forall j :: 0 <= j < k ==> !w[args[j]].aborted
    ensures k < |args| ==> w[args[k]].aborted
    ensures k == |args| <==> !SomeAborted(w, args)
  {
    if args == [] then 0
    else if w[args[0]].aborted then 0
    else 1 + FirstAborted(w, args[1..])
  }

  /** `signals.filter((signal) => !signal.aborted)`. */
  function NotAborted(w: seq<SignalRecord>, args: seq<nat>): (r: seq<nat>)
    requires InRange(args, |w|)
    ensures InRange(r, |w|) && |r| <= |args|
    ensures forall j :: j in r <==> j in args && !w[j].aborted
    ensures r == [] <==> EveryAborted(w, args)
  {
    if args == [] then []
    else
      var rest := NotAborted(w, args[1..]);
      assert forall j :: j in args <==> j == args[0] || j in args[1..];
      if w[args[0]].aborted then rest else [args[0]] + rest
  }

  /** The filter keeps each live argument as often as it occurs, duplicates
      included, and drops every aborted one. */
  lemma {:induction false} NotAbortedCounts(w: seq<SignalRecord>, args: seq<nat>)
    requires InRange(args, |w|)
    ensures forall j :: 0 <= j < |w| ==>
      multiset(NotAborted(w, args))[j] == if w[j].aborted then 0 else multiset(args)[j]
  {
    if args != [] {
      NotAbortedCounts(w, args[1..]);
      assert args == [args[0]] + args[1..];
    }
  }

  /** `signals.map((signal) => signal.reason ?? new AbortError())`. */
  function Reasons(w: seq<SignalRecord>, args: seq<nat>): (rs: seq<Value>)
    requires InRange(args, |w|)
    ensures |rs| == |args|
    ensures forall k :: 0 <= k < |args| ==> rs[k] == OrAbortError(w[args[k]].reason)
  {
    if args == [] then [] else [OrAbortError(w[args[0]].reason)] + Reasons(w, args[1..])
  }

  /** The reason `allAborted` gives when no argument is live at call time:
      an AggregateError wrapping every argument's reason, in argument order. */
  function AggregateReason(w: seq<SignalRecord>, args: seq<nat>): (e: Value)
    requires InRange(args, |w|)
    ensures e.Error? && e.name == "AggregateError" && !IsAbortError(e)
    ensures |e.errors| == |args|
    ensures forall k :: 0 <= k < |args| ==>
      e.errors[k] == OrAbortError(w[args[k]].reason) &&
      (Nullish(w[args[k]].reason) ==> IsAbortError(e.errors[k]))
  {
    Error("AggregateError", "", Undefined, Reasons(w, args))
  }

  /** The aggregate depends only on the arguments' reasons: not on their
      flags or listeners, nor on any other signal. */
  lemma ReasonsFrame(w: seq<SignalRecord>, v: seq<SignalRecord>, args: seq<nat>)
    requires InRange(args, |w|) && InRange(args, |v|)
    requires forall k :: 0 <= k < |args| ==> v[args[k]].reason == w[args[k]].reason
    ensures AggregateReason(v, args) == AggregateReason(w, args)
  {
  }

  /** The distinct signals of an argument list. */
  function Elements(s: seq<nat>): set<nat>
  {
    set x | x in s
  }

  predicate NoDuplicates(s: seq<nat>)
  {
    forall p, q :: 0 <= p < q < |s| ==> s[p] != s[q]
  }

  /** `allAborted`'s test for "every live argument has fired", comparing the
      size of the set of fired signals with the number of distinct signals
      that were live at call time. */
  predicate AllFired(fired: set<nat>, notAborted: seq<nat>)
  {
    |fired| == |Elements(notAborted)|
  }

  /** The same test as the source writes it, `aborted.size === notAborted.length`. */
  predicate AllFiredAsWritten(fired: set<nat>, notAborted: seq<nat>)
  {
    |fired| == |notAborted|
  }

  /** A subset of a finite set with the same size is the whole set. */
  lemma SubsetSameSize(a: set<nat>, b: set<nat>)
    requires a <= b && |a| == |b|
    ensures a == b
  {
    assert b == a + (b - a);
    assert a * (b - a) == {};
    assert |b - a| == 0;
  }

  /** As long as only live arguments fire, `AllFired` holds exactly when every
      distinct live argument has fired. */
  lemma AllFiredExactly(fired: set<nat>, notAborted: seq<nat>)
    requires fired <= Elements(notAborted)
    ensures AllFired(fired, notAborted) <==> fired == Elements(notAborted)
  {
    if AllFired(fired, notAborted) {
      SubsetSameSize(fired, Elements(notAborted));
    }
  }

  lemma {:induction false} ElementsSize(s: seq<nat>)
    ensures |Elements(s)| <= |s|
    ensures NoDuplicates(s) ==> |Elements(s)| == |s|
  {
    if s != [] {
      ElementsSize(s[1..]);
      assert Elements(s) == {s[0]} + Elements(s[1..]);
      if NoDuplicates(s) {
        assert NoDuplicates(s[1..]);
        assert s[0] !in Elements(s[1..]);
      }
    }
  }

  /** The test as written never fires early: when it holds, every distinct
      live argument has fired. With no duplicate arguments it agrees with
      `AllFired`. */
  lemma AsWrittenSound(fired: set<nat>, notAborted: seq<nat>)
    requires fired <= Elements(notAborted)
    ensures AllFiredAsWritten(fired, notAborted) ==> fired == Elements(notAborted)
    ensures NoDuplicates(notAborted) ==>
      (AllFiredAsWritten(fired, notAborted) <==> AllFired(fired, notAborted))
  {
    ElementsSize(notAborted);
    assert |fired| <= |Elements(notAborted)| by {
      assert Elements(notAborted) == fired + (Elements(notAborted) - fired);
    }
    if AllFiredAsWritten(fired, notAborted) {
      SubsetSameSize(fired, Elements(notAborted));
    }
  }

  /** `allAborted([s, s])` with `s` live: the filter keeps both entries, so
      after `s` fires the Set holds one signal, every live argument has fired,
      and yet the test as written compares 1 with 2 and never aborts the
      derived signal. */
  lemma AsWrittenMissesDuplicate(w: seq<SignalRecord>, s: nat)
    requires s < |w| && !w[s].aborted
    ensures NotAborted(w, [s, s]) == [s, s] && Elements([s, s]) == {s}
    ensures AllFired({s}, NotAborted(w, [s, s])) && !AllFiredAsWritten({s}, NotAborted(w, [s, s]))
  {
    assert [s, s][1..] == [s] && [s][1..] == [];
    assert Elements([s, s]) == {s};
  }

  /** Registering a listener on one more signal. */
  lemma AddOnStep(w: seq<SignalRecord>, ids: seq<nat>, x: nat, l: Listener)
    requires InRange(ids, |w|) && x < |w|
    ensures InRange(ids + [x], |w|)
    ensures var v := AddOn(w, ids, l);
      AddOn(w, ids + [x], l) == v[x := v[x].(listeners := AddListener(v[x].listeners, l))]
  {
  }

  /** After registering a new listener on `ids`, the signals holding it are
      exactly those of `ids`, each once. */
  lemma AddOnHolds(w: seq<SignalRecord>, ids: seq<nat>, l: Listener)
    requires InRange(ids, |w|) && NoneHolds(w, l)
    ensures AtMostOnce(AddOn(w, ids, l), l)
    ensures forall j :: 0 <= j < |w| ==> (l in AddOn(w, ids, l)[j].listeners <==> j in ids)
  {
  }

  /** Registering a new listener on some signals and then removing it from
      all of them leaves every signal as it was. */
  lemma UndoAddOn(w: seq<SignalRecord>, ids: seq<nat>, l: Listener)
    requires InRange(ids, |w|) && NoneHolds(w, l)
    ensures RemoveEverywhere(AddOn(w, ids, l), l) == w
  {
    var v := RemoveEverywhere(AddOn(w, ids, l), l);
    forall j | 0 <= j < |w| ensures v[j] == w[j] {
      if j in ids {
        AddThenRemove(w[j].listeners, l);
      }
    }
  }

  /** The invariant of an `anyAborted` call over signals `w`: the returned
      signal is aborted exactly when some argument is, with the reason of an
      aborted argument; until then the handler sits exactly on the arguments. */
  ghost predicate AnyInvariant(w: seq<SignalRecord>, args: seq<nat>, returned: Returned, derived: SignalRecord)
  {
    InRange(args, |w|) && AtMostOnce(w, Handler) &&
    (returned.Derived? ==>
      |args| >= 2 &&
      (derived.aborted <==> SomeAborted(w, args)) &&
      (derived.aborted ==>
        NoneHolds(w, Handler) &&
        exists k :: 0 <= k < |args| && w[args[k]].aborted && derived.reason == w[args[k]].reason) &&
      (!derived.aborted ==>
        forall j :: 0 <= j < |w| ==> (Handler in w[j].listeners <==> j in args))) &&
    (returned.Input? ==> |args| == 1 && returned.index == args[0] && NoneHolds(w, Handler)) &&
    (returned.Threw? ==> args == [] && NoneHolds(w, Handler))
  }

  /** The handler runs for argument `i`: the derived signal takes `i`'s reason
      and the handler is gone from every signal. */
  lemma AnyHandlerStep(w: seq<SignalRecord>, args: seq<nat>, returned: Returned, derived: SignalRecord, i: nat, r: Value)
    requires AnyInvariant(w, args, returned, derived)
    requires i < |w| && !w[i].aborted && Handler in w[i].listeners
    ensures returned.Derived? && !derived.aborted && i in args
    ensures AnyInvariant(RemoveEverywhere(w[i := Abort(w[i], r)], Handler), args, returned, Abort(derived, r))
  {
  }

  /** An input without the handler aborts: only its own record changes. */
  lemma AnyQuietStep(w: seq<SignalRecord>, args: seq<nat>, returned: Returned, derived: SignalRecord, i: nat, r: Value)
    requires AnyInvariant(w, args, returned, derived)
    requires i < |w| && !w[i].aborted && Handler !in w[i].listeners
    ensures AnyInvariant(w[i := Abort(w[i], r)], args, returned, derived)
  {
  }

  /** The state each outcome of `anyAborted`'s setup leaves behind meets the invariant. */
  lemma AnyStarts(w: seq<SignalRecord>, args: seq<nat>)
    requires InRange(args, |w|) && NoneHolds(w, Handler)
    ensures args == [] ==> AnyInvariant(w, args, Threw(NoSignalsError), Fresh)
    ensures |args| == 1 ==> AnyInvariant(w, args, Input(args[0]), Fresh)
    ensures |args| >= 2 && FirstAborted(w, args) < |args| ==>
      AnyInvariant(w, args, Derived, Abort(Fresh, w[args[FirstAborted(w, args)]].reason))
    ensures |args| >= 2 && FirstAborted(w, args) == |args| ==>
      AnyInvariant(AddOn(w, args, Handler), args, Derived, Fresh)
  {
  }

  /** One call of `anyAborted(signals)`. */
  class AnyAborted {
    const inputs: array<SignalRecord>
    const args: seq<nat>
    const returned: Returned
    var derived: SignalRecord

    ghost predicate Valid()
      reads this, inputs
    {
      AnyInvariant(inputs[..], args, returned, derived)
    }

    /** `anyAborted(args)`. The precondition says that this call's handler
        is a new closure, registered nowhere yet. */
    constructor (inputs: array<SignalRecord>, args: seq<nat>)
      requires InRange(args, inputs.Length) && NoneHolds(inputs[..], Handler)
      modifies inputs
      ensures this.inputs == inputs && this.args == args && Valid()
      ensures args == [] ==> returned == Threw(NoSignalsError)
      ensures |args| == 1 ==> returned == Input(args[0])
      ensures |args| >= 2 ==> returned == Derived
      ensures |args| <= 1 ==> inputs[..] == old(inputs[..])
      ensures |args| >= 2 ==>
        var k := FirstAborted(old(inputs[..]), args);
        if k < |args| then
          derived.aborted && derived.reason == old(inputs[args[k]].reason) &&
          inputs[..] == old(inputs[..])
        else
          !derived.aborted && inputs[..] == AddOn(old(inputs[..]), args, Handler)
    {
      this.inputs := inputs;
      this.args := args;
      returned := if args == [] then Threw(NoSignalsError)
                  else if |args| == 1 then Input(args[0])
                  else Derived;
      derived := Fresh;
      new;
      if |args| >= 2 {
        Start();
      } else {
        AnyStarts(inputs[..], args);
      }
    }

    /** The part of `anyAborted` past its length checks: create the
        controller, then scan the arguments, registering the handler on each
        and running it at once on the first one found aborted. */
    method Start()
      requires returned == Derived && |args| >= 2 && derived == Fresh
      requires InRange(args, inputs.Length) && NoneHolds(inputs[..], Handler)
      modifies this`derived, inputs
      ensures Valid()
      ensures var k := FirstAborted(old(inputs[..]), args);
        if k < |args| then
          derived.aborted && derived.reason == old(inputs[args[k]].reason) &&
          inputs[..] == old(inputs[..])
        else
          !derived.aborted && inputs[..] == AddOn(old(inputs[..]), args, Handler)
    {
      ghost var w0 := inputs[..];
      AnyStarts(w0, args);
      var k := Scan();
      if k < |args| {
        HandleAbort(args[k]);
        UndoAddOn(w0, args[..k], Handler);
      } else {
        assert args[..k] == args;
      }
    }

    /** The `for (const signal of signals)` loop of `anyAborted`: register the
        handler on each argument in turn, and stop at the first argument that
        is already aborted; its position is returned. */
    method Scan() returns (k: nat)
      requires InRange(args, inputs.Length)
      modifies inputs
      ensures k == FirstAborted(old(inputs[..]), args)
      ensures inputs[..] == AddOn(old(inputs[..]), args[..k], Handler)
    {
      ghost var w0 := inputs[..];
      k := 0;
      while k < |args| && !inputs[args[k]].aborted
        invariant k <= |args|
        invariant forall j :: 0 <= j < k ==> !w0[args[j]].aborted
        invariant inputs[..] == AddOn(w0, args[..k], Handler)
      {
        AddOnStep(w0, args[..k], args[k], Handler);
        inputs[args[k]] := inputs[args[k]].(listeners := AddListener(inputs[args[k]].listeners, Handler));
        assert args[..k + 1] == args[..k] + [args[k]];
        k := k + 1;
      }
    }

    /** `handleAbort.call(inputs[s])`: abort the derived signal with the
        reason of `s`, then remove the handler from every argument. */
    method HandleAbort(s: nat)
      requires s < inputs.Length && InRange(args, inputs.Length)
      requires forall j :: 0 <= j < inputs.Length && Handler in inputs[j].listeners ==> j in args
      modifies this`derived, inputs
      ensures derived == Abort(old(derived), old(inputs[s].reason))
      ensures inputs[..] == RemoveEverywhere(old(inputs[..]), Handler)
    {
      ghost var w := inputs[..];
      var wasAborted := derived.aborted;
      derived := Abort(derived, inputs[s].reason);
      if !wasAborted {
        // registrations made with `signal: controller.signal` end when it aborts
        forall j | 0 <= j < inputs.Length {
          inputs[j] := Strip(inputs[j], Handler);
        }
      }
      for k := 0 to |args|
        invariant derived == Abort(old(derived), w[s].reason)
        invariant forall j :: 0 <= j < inputs.Length ==>
          inputs[j] == if !wasAborted || j in args[..k] then Strip(w[j], Handler) else w[j]
      {
        inputs[args[k]] := Strip(inputs[args[k]], Handler);
        assert args[..k + 1] == args[..k] + [args[k]];
      }
      assert args[..|args|] == args;
    }

    /** The controller of input `i` aborts it with reason `r`; the abort event
        runs this call's handler if it is registered on `i`, which first
        unregisters it (`once`). */
    method AbortInput(i: nat, r: Value)
      requires Valid() && i < inputs.Length
      modifies this`derived, inputs
      ensures Valid()
      ensures old(inputs[i].aborted) ==> inputs[..] == old(inputs[..]) && derived == old(derived)
      ensures !old(inputs[i].aborted) && Handler in old(inputs[i].listeners) ==>
        derived == Abort(old(derived), r) &&
        inputs[..] == RemoveEverywhere(old(inputs[..])[i := Abort(old(inputs[i]), r)], Handler)
      ensures !old(inputs[i].aborted) && Handler !in old(inputs[i].listeners) ==>
        derived == old(derived) && inputs[..] == old(inputs[..])[i := Abort(old(inputs[i]), r)]
      ensures returned.Derived? && !old(derived.aborted) && !old(inputs[i].aborted) && i in args ==>
        derived.aborted && derived.reason == r
      ensures old(derived.aborted) ==> derived == old(derived)
      ensures AbortedOnly(old(inputs[..]), inputs[..], i, r)
    {
      ghost var w := inputs[..];
      AbortedOnlyCases(w, i, r, Handler);
      if inputs[i].aborted {
        return;
      }
      inputs[i] := Abort(inputs[i], r);
      if Handler in inputs[i].listeners {
        AnyHandlerStep(w, args, returned, derived, i, r);
        inputs[i] := Strip(inputs[i], Handler);
        HandleAbort(i);
        RemoveAfterStrip(w, i, Abort(w[i], r), Handler);
      } else {
        AnyQuietStep(w, args, returned, derived, i, r);
      }
    }

    /** The read-only state of the signal the call returned. */
    method View() returns (v: SignalView)
      requires Valid() && !returned.Threw?
      ensures v.aborted <==> SomeAborted(inputs[..], args)
      ensures v.aborted ==>
        exists k :: 0 <= k < |args| && inputs[args[k]].aborted && v.reason == inputs[args[k]].reason
      ensures v == if returned.Input? then inputs[args[0]].View() else derived.View()
    {
      if returned.Input? {
        v := inputs[returned.index].View();
        assert inputs[args[0]].View() == v;
      } else {
        v := derived.View();
      }
    }
  }

  /** The invariant of an `allAborted` call over signals `w`: the returned
      signal is aborted exactly when every argument is; until then the handler
      sits exactly on the live arguments that have not fired, and `fired`
      holds exactly the live-at-call arguments that have aborted since. */
  ghost predicate AllInvariant(w: seq<SignalRecord>, args: seq<nat>, returned: Returned,
                               notAborted: seq<nat>, fired: set<nat>, derived: SignalRecord)
  {
    InRange(args, |w|) && AtMostOnce(w, Handler) &&
    (returned.Input? ==> |args| == 1 && returned.index == args[0] && NoneHolds(w, Handler)) &&
    (returned.Derived? ==>
      |args| != 1 && Partition(w, args, notAborted) && fired <= Elements(notAborted) &&
      (derived.aborted <==> EveryAborted(w, args)) &&
      (derived.aborted ==> Resolved(w, args, notAborted, derived)) &&
      (!derived.aborted ==> Waiting(w, notAborted, fired))) &&
    !returned.Threw?
  }

  /** `notAborted` lists arguments, and every other argument is aborted. */
  ghost predicate Partition(w: seq<SignalRecord>, args: seq<nat>, notAborted: seq<nat>)
    requires InRange(args, |w|)
  {
    InRange(notAborted, |w|) &&
    (forall j :: j in notAborted ==> j in args) &&
    (forall k :: 0 <= k < |args| && args[k] !in notAborted ==> w[args[k]].aborted)
  }

  /** The derived signal has aborted: no handler is left, and the reason is the
      aggregate when nothing was live at call time, and missing otherwise. */
  ghost predicate Resolved(w: seq<SignalRecord>, args: seq<nat>, notAborted: seq<nat>, derived: SignalRecord)
    requires InRange(args, |w|)
  {
    NoneHolds(w, Handler) &&
    derived.reason == if notAborted == [] then AggregateReason(w, args) else Undefined
  }

  /** The derived signal still waits: `fired` is exactly the live-at-call
      arguments that aborted since, and the handler sits exactly on the others. */
  ghost predicate Waiting(w: seq<SignalRecord>, notAborted: seq<nat>, fired: set<nat>)
    requires InRange(notAborted, |w|)
  {
    notAborted != [] && !AllFired(fired, notAborted) &&
    (forall k :: 0 <= k < |notAborted| ==> (notAborted[k] in fired <==> w[notAborted[k]].aborted)) &&
    (forall j :: 0 <= j < |w| ==> (Handler in w[j].listeners <==> j in notAborted && !w[j].aborted))
  }

  /** An input that carries the handler aborts: the call is still waiting,
      and the input is one of its live arguments. */
  lemma AllHandlerFacts(w: seq<SignalRecord>, args: seq<nat>, returned: Returned,
                        notAborted: seq<nat>, fired: set<nat>, derived: SignalRecord, i: nat)
    requires AllInvariant(w, args, returned, notAborted, fired, derived)
    requires i < |w| && !w[i].aborted && Handler in w[i].listeners
    ensures returned.Derived? && !derived.aborted && i in notAborted && i !in fired
    ensures InRange(notAborted, |w|)
    ensures forall j :: 0 <= j < |w| && Handler in w[j].listeners ==> j in notAborted
  {
  }

  /** The handler runs for the last live argument: the derived signal aborts. */
  lemma AllHandlerCompletes(w: seq<SignalRecord>, args: seq<nat>, returned: Returned,
                            notAborted: seq<nat>, fired: set<nat>, derived: SignalRecord, i: nat, r: Value)
    requires AllInvariant(w, args, returned, notAborted, fired, derived)
    requires i < |w| && !w[i].aborted && Handler in w[i].listeners
    requires AllFired(fired + {i}, notAborted)
    ensures AllInvariant(RemoveEverywhere(w[i := Strip(Abort(w[i], r), Handler)], Handler),
                         args, returned, notAborted, fired + {i}, Abort(derived, Undefined))
  {
    AllHandlerFacts(w, args, returned, notAborted, fired, derived, i);
    var w1 := w[i := Strip(Abort(w[i], r), Handler)];
    var f1 := fired + {i};
    AllFiredExactly(f1, notAborted);
    var w2 := RemoveEverywhere(w1, Handler);
    forall k | 0 <= k < |args| ensures w2[args[k]].aborted {
      if args[k] in notAborted {
        assert args[k] in Elements(notAborted);
        var m :| 0 <= m < |notAborted| && notAborted[m] == args[k];
        if args[k] != i {
          assert w[notAborted[m]].aborted;
        }
      }
    }
  }

  /** Aborting a signal keeps the partition of the arguments. */
  lemma PartitionStep(w: seq<SignalRecord>, args: seq<nat>, notAborted: seq<nat>, i: nat, s: SignalRecord)
    requires InRange(args, |w|) && Partition(w, args, notAborted) && i < |w| && s.aborted
    ensures Partition(w[i := s], args, notAborted)
  {
  }

  /** Replacing one signal by one holding the handler at most once. */
  lemma AtMostOnceStep(w: seq<SignalRecord>, i: nat, s: SignalRecord)
    requires AtMostOnce(w, Handler) && i < |w| && multiset(s.listeners)[Handler] <= 1
    ensures AtMostOnce(w[i := s], Handler)
  {
  }

  /** The handler runs for a live argument while others are still live. */
  lemma AllHandlerWaits(w: seq<SignalRecord>, args: seq<nat>, returned: Returned,
                        notAborted: seq<nat>, fired: set<nat>, derived: SignalRecord, i: nat, r: Value)
    requires AllInvariant(w, args, returned, notAborted, fired, derived)
    requires i < |w| && !w[i].aborted && Handler in w[i].listeners
    requires !AllFired(fired + {i}, notAborted)
    ensures AllInvariant(w[i := Strip(Abort(w[i], r), Handler)], args, returned, notAborted, fired + {i}, derived)
  {
    AllHandlerFacts(w, args, returned, notAborted, fired, derived, i);
    var s := Strip(Abort(w[i], r), Handler);
    var w1 := w[i := s];
    var f1 := fired + {i};
    PartitionStep(w, args, notAborted, i, s);
    AtMostOnceStep(w, i, s);
    StillWaiting(w, args, notAborted, fired, i, s);
  }

  /** The waiting half of `AllHandlerWaits`. */
  lemma StillWaiting(w: seq<SignalRecord>, args: seq<nat>, notAborted: seq<nat>, fired: set<nat>, i: nat, s: SignalRecord)
    requires InRange(args, |w|) && Partition(w, args, notAborted) && fired <= Elements(notAborted)
    requires Waiting(w, notAborted, fired)
    requires i < |w| && i in notAborted && !w[i].aborted && Handler in w[i].listeners
    requires s.aborted && Handler !in s.listeners && s.listeners == Without(w[i].listeners, Handler)
    requires !AllFired(fired + {i}, notAborted)
    ensures fired + {i} <= Elements(notAborted)
    ensures !EveryAborted(w[i := s], args)
    ensures Waiting(w[i := s], notAborted, fired + {i})
  {
    var w1 := w[i := s];
    var f1 := fired + {i};
    AllFiredExactly(f1, notAborted);
    assert Elements(notAborted) - f1 != {};
    var x :| x in Elements(notAborted) - f1;
    var m :| 0 <= m < |notAborted| && notAborted[m] == x;
    assert !w1[x].aborted;
    var k :| 0 <= k < |args| && args[k] == x;
    forall k | 0 <= k < |notAborted| ensures notAborted[k] in f1 <==> w1[notAborted[k]].aborted {
    }
  }

  /** An input without the handler aborts: only its own record changes. */
  lemma AllQuietStep(w: seq<SignalRecord>, args: seq<nat>, returned: Returned,
                     notAborted: seq<nat>, fired: set<nat>, derived: SignalRecord, i: nat, r: Value)
    requires AllInvariant(w, args, returned, notAborted, fired, derived)
    requires i < |w| && !w[i].aborted && Handler !in w[i].listeners
    ensures AllInvariant(w[i := Abort(w[i], r)], args, returned, notAborted, fired, derived)
  {
  }

  /** `allAborted`'s setup when no argument is live: the derived signal is
      aborted at once with the aggregate reason. */
  lemma AllStartsAborted(w: seq<SignalRecord>, args: seq<nat>)
    requires InRange(args, |w|) && NoneHolds(w, Handler)
    requires |args| != 1 && NotAborted(w, args) == []
    ensures AllInvariant(w, args, Derived, [], {}, Abort(Fresh, AggregateReason(w, args)))
  {
  }

  /** `allAborted`'s setup when some argument is live: the handler is
      registered on the live arguments, and nothing has fired. */
  lemma AllStartsWaiting(w: seq<SignalRecord>, args: seq<nat>)
    requires InRange(args, |w|) && NoneHolds(w, Handler)
    requires |args| != 1 && NotAborted(w, args) != []
    ensures AllInvariant(AddOn(w, NotAborted(w, args), Handler), args, Derived, NotAborted(w, args), {}, Fresh)
  {
    var na := NotAborted(w, args);
    AddOnHolds(w, na, Handler);
    AddOnFlags(w, na, Handler);
    WaitingAtStart(AddOn(w, na, Handler), args, na);
  }

  /** The invariant once the handler sits on exactly the live arguments. */
  lemma WaitingAtStart(v: seq<SignalRecord>, args: seq<nat>, na: seq<nat>)
    requires InRange(args, |v|) && |args| != 1 && AtMostOnce(v, Handler)
    requires InRange(na, |v|) && na != []
    requires forall j :: j in na <==> j in args && !v[j].aborted
    requires forall j :: 0 <= j < |v| ==> (Handler in v[j].listeners <==> j in na)
    ensures AllInvariant(v, args, Derived, na, {}, Fresh)
  {
    assert Partition(v, args, na);
    assert na[0] in na;
    var k :| 0 <= k < |args| && args[k] == na[0];
    assert !EveryAborted(v, args);
    StartWaiting(v, na);
  }

  /** Registering a listener changes no signal's flag or reason. */
  lemma AddOnFlags(w: seq<SignalRecord>, ids: seq<nat>, l: Listener)
    requires InRange(ids, |w|)
    ensures forall j :: 0 <= j < |w| ==>
      AddOn(w, ids, l)[j].aborted == w[j].aborted && AddOn(w, ids, l)[j].reason == w[j].reason
  {
  }

  /** The handler sits exactly on the live arguments and none has fired. */
  lemma StartWaiting(v: seq<SignalRecord>, na: seq<nat>)
    requires InRange(na, |v|) && na != []
    requires forall k :: 0 <= k < |na| ==> !v[na[k]].aborted
    requires forall j :: 0 <= j < |v| ==> (Handler in v[j].listeners <==> j in na)
    ensures Waiting(v, na, {})
  {
    assert na[0] in Elements(na);
  }

  /** One call of `allAborted(signals)`. */
  class AllAborted {
    const inputs: array<SignalRecord>
    const args: seq<nat>
    const returned: Returned
    /** The arguments that were live at call time. */
    const notAborted: seq<nat>
    /** The Set of live arguments whose abort event has reached the handler. */
    var fired: set<nat>
    var derived: SignalRecord

    ghost predicate Valid()
      reads this, inputs
    {
      AllInvariant(inputs[..], args, returned, notAborted, fired, derived)
    }

    /** `allAborted(args)`. The precondition says that this call's handler
        is a new closure, registered nowhere yet. */
    constructor (inputs: array<SignalRecord>, args: seq<nat>)
      requires InRange(args, inputs.Length) && NoneHolds(inputs[..], Handler)
      modifies inputs
      ensures this.inputs == inputs && this.args == args && Valid()
      ensures |args| == 1 ==> returned == Input(args[0]) && inputs[..] == old(inputs[..])
      ensures |args| != 1 ==> returned == Derived && notAborted == NotAborted(old(inputs[..]), args)
      ensures |args| != 1 && notAborted == [] ==>
        derived.aborted && derived.reason == AggregateReason(old(inputs[..]), args) &&
        inputs[..] == old(inputs[..])
      ensures |args| != 1 && notAborted != [] ==>
        !derived.aborted && fired == {} && inputs[..] == AddOn(old(inputs[..]), notAborted, Handler)
    {
      this.inputs := inputs;
      this.args := args;
      returned := if |args| == 1 then Input(args[0]) else Derived;
      notAborted := if |args| == 1 then [] else NotAborted(inputs[..], args);
      fired := {};
      derived := Fresh;
      new;
      if |args| != 1 {
        if notAborted == [] {
          AllStartsAborted(inputs[..], args);
          // abort(): the aggregate of every argument's reason
          derived := Abort(derived, AggregateReason(inputs[..], args));
        } else {
          AllStartsWaiting(inputs[..], args);
          Register();
        }
      }
    }

    /** The `for (const signal of notAborted)` loop registering the handler. */
    method Register()
      requires InRange(notAborted, inputs.Length)
      modifies inputs
      ensures inputs[..] == AddOn(old(inputs[..]), notAborted, Handler)
    {
      ghost var w0 := inputs[..];
      for k := 0 to |notAborted|
        invariant inputs[..] == AddOn(w0, notAborted[..k], Handler)
      {
        AddOnStep(w0, notAborted[..k], notAborted[k], Handler);
        inputs[notAborted[k]] := inputs[notAborted[k]].(listeners := AddListener(inputs[notAborted[k]].listeners, Handler));
        assert notAborted[..k + 1] == notAborted[..k] + [notAborted[k]];
      }
      assert notAborted[..|notAborted|] == notAborted;
    }

    /** `handleAbort.call(inputs[s])`: add `s` to the Set; once every live
        argument has fired, abort the derived signal without a reason and
        remove the handler from every live argument. */
    method HandleAbort(s: nat)
      requires s < inputs.Length && InRange(notAborted, inputs.Length)
      requires forall j :: 0 <= j < inputs.Length && Handler in inputs[j].listeners ==> j in notAborted
      modifies this`fired, this`derived, inputs
      ensures fired == old(fired) + {s}
      ensures AllFired(fired, notAborted) ==>
        derived == Abort(old(derived), Undefined) && inputs[..] == RemoveEverywhere(old(inputs[..]), Handler)
      ensures !AllFired(fired, notAborted) ==> derived == old(derived) && inputs[..] == old(inputs[..])
    {
      fired := fired + {s};
      if AllFired(fired, notAborted) {
        ghost var w := inputs[..];
        var wasAborted := derived.aborted;
        derived := Abort(derived, Undefined);
        if !wasAborted {
          // registrations made with `signal: controller.signal` end when it aborts
          forall j | 0 <= j < inputs.Length {
            inputs[j] := Strip(inputs[j], Handler);
          }
        }
        for k := 0 to |notAborted|
          invariant derived == Abort(old(derived), Undefined) && fired == old(fired) + {s}
          invariant forall j :: 0 <= j < inputs.Length ==>
            inputs[j] == if !wasAborted || j in notAborted[..k] then Strip(w[j], Handler) else w[j]
        {
          inputs[notAborted[k]] := Strip(inputs[notAborted[k]], Handler);
          assert notAborted[..k + 1] == notAborted[..k] + [notAborted[k]];
        }
        assert notAborted[..|notAborted|] == notAborted;
      }
    }

    /** The controller of input `i` aborts it with reason `r`; the abort event
        runs this call's handler if it is registered on `i`, which first
        unregisters it (`once`). */
    method AbortInput(i: nat, r: Value)
      requires Valid() && i < inputs.Length
      modifies this`fired, this`derived, inputs
      ensures Valid()
      ensures old(inputs[i].aborted) ==>
        inputs[..] == old(inputs[..]) && derived == old(derived) && fired == old(fired)
      ensures !old(inputs[i].aborted) && Handler in old(inputs[i].listeners) ==>
        fired == old(fired) + {i} &&
        if AllFired(fired, notAborted) then
          derived == Abort(old(derived), Undefined) &&
          inputs[..] == RemoveEverywhere(old(inputs[..])[i := Abort(old(inputs[i]), r)], Handler)
        else
          derived == old(derived) &&
          inputs[..] == old(inputs[..])[i := Strip(Abort(old(inputs[i]), r), Handler)]
      ensures !old(inputs[i].aborted) && Handler !in old(inputs[i].listeners) ==>
        derived == old(derived) && fired == old(fired) &&
        inputs[..] == old(inputs[..])[i := Abort(old(inputs[i]), r)]
      ensures old(derived.aborted) ==> derived == old(derived)
      ensures AbortedOnly(old(inputs[..]), inputs[..], i, r)
    {
      ghost var w := inputs[..];
      AbortedOnlyCases(w, i, r, Handler);
      if inputs[i].aborted {
        return;
      }
      inputs[i] := Abort(inputs[i], r);
      if Handler in inputs[i].listeners {
        AllHandlerFacts(w, args, returned, notAborted, fired, derived, i);
        ghost var f0, d0 := fired, derived;
        inputs[i] := Strip(inputs[i], Handler);
        ghost var w1 := inputs[..];
        assert w1 == w[i := Strip(Abort(w[i], r), Handler)];
        HandleAbort(i);
        if AllFired(fired, notAborted) {
          AllHandlerCompletes(w, args, returned, notAborted, f0, d0, i, r);
          RemoveAfterStrip(w, i, Abort(w[i], r), Handler);
        } else {
          AllHandlerWaits(w, args, returned, notAborted, f0, d0, i, r);
        }
      } else {
        AllQuietStep(w, args, returned, notAborted, fired, derived, i, r);
      }
    }

    /** The read-only state of the signal the call returned. */
    method View() returns (v: SignalView)
      requires Valid()
      ensures v.aborted <==> EveryAborted(inputs[..], args)
      ensures returned.Derived? && notAborted == [] ==>
        v.aborted && v.reason == AggregateReason(inputs[..], args)
      ensures returned.Derived? && notAborted != [] && v.aborted ==> v.reason == Undefined
      ensures v == if returned.Input? then inputs[args[0]].View() else derived.View()
    {
      if returned.Input? {
        v := inputs[returned.index].View();
        assert inputs[args[0]].View() == v;
      } else {
        v := derived.View();
      }
    }
  }
}
