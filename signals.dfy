/** A minimal model of the platform's AbortSignal / AbortController pair:
    a one-shot aborted flag with its reason, and the signal's registry of
    "abort" listeners. Signals are records; the combinators keep them in an
    array indexed by signal identity. */
module Signals {
  import opened AbortErrors

  /** An entry of a signal's listener registry: the `handleAbort` closure of
      the combinator call being modelled, or a listener registered by someone
      else, which the model keeps but never runs. */
  datatype Listener = Handler | Other(id: nat)

  datatype SignalRecord = SignalRecord(aborted: bool, reason: Value, listeners: seq<Listener>)
  {
    /** The consumer's view of this signal. */
    function View(): SignalView
    {
      SignalView(aborted, reason)
    }
  }

  /** The signal of a freshly constructed AbortController. */
  const Fresh := SignalRecord(false, Undefined, [])

  /** `controller.abort(reason)`, state part: the first call sets the flag and
      the reason, every later call leaves the signal as it is. Listener
      dispatch is done by the caller, which knows the handlers. */
  function Abort(s: SignalRecord, reason: Value): (t: SignalRecord)
    ensures t.aborted && t.listeners == s.listeners
    ensures s.aborted ==> t == s
    ensures !s.aborted ==> t.reason == reason
  {
    if s.aborted then s else s.(aborted := true, reason := reason)
  }

  /** Aborting is one-shot: a second abort, with any reason, changes nothing. */
  lemma AbortOnce(s: SignalRecord, first: Value, second: Value)
    ensures Abort(Abort(s, first), second) == Abort(s, first)
    ensures Abort(Abort(s, first), second).reason == (if s.aborted then s.reason else first)
  {
  }

  /** `addEventListener("abort", l)`: appends `l`, unless the same listener is
      already registered, in which case nothing changes. */
  function AddListener(ls: seq<Listener>, l: Listener): (r: seq<Listener>)
    ensures forall x :: x in r <==> x in ls || x == l
    ensures l in ls ==> r == ls
    ensures multiset(r)[l] == 1 || (l in ls && r == ls)
    ensures forall x :: x != l ==> multiset(r)[x] == multiset(ls)[x]
  {
    if l in ls then ls else ls + [l]
  }

  /** `removeEventListener("abort", l)`: drops `l` and keeps every other entry,
      as often as it occurs. */
  function Without(ls: seq<Listener>, l: Listener): (r: seq<Listener>)
    ensures l !in r
    ensures forall x :: x != l ==> (x in r <==> x in ls)
    ensures forall x :: x != l ==> multiset(r)[x] == multiset(ls)[x]
    ensures l !in ls ==> r == ls
    ensures |r| <= |ls|
  {
    if ls == [] then []
    else
      assert ls == [ls[0]] + ls[1..];
      if ls[0] == l then Without(ls[1..], l)
      else [ls[0]] + Without(ls[1..], l)
  }

  /** Removing a listener right after adding it restores a registry that did
      not hold it. */
  lemma AddThenRemove(ls: seq<Listener>, l: Listener)
    requires l !in ls
    ensures Without(AddListener(ls, l), l) == ls
  {
    WithoutAppended(ls, l);
  }

  /** The induction behind `AddThenRemove`: `l` appended to a registry
      without it is the only entry `Without` drops. */
  lemma {:induction false} WithoutAppended(ls: seq<Listener>, l: Listener)
    requires l !in ls
    ensures Without(ls + [l], l) == ls
  {
    if ls == [] {
      assert [l][1..] == [];
    } else {
      assert (ls + [l])[1..] == ls[1..] + [l];
      WithoutAppended(ls[1..], l);
      assert ls == [ls[0]] + ls[1..];
    }
  }

  /** True when every signal of `w` holds `l` at most once. */
  predicate AtMostOnce(w: seq<SignalRecord>, l: Listener)
  {
    forall j :: 0 <= j < |w| ==> multiset(w[j].listeners)[l] <= 1
  }

  /** True when no signal of `w` holds `l`. */
  predicate NoneHolds(w: seq<SignalRecord>, l: Listener)
  {
    forall j :: 0 <= j < |w| ==> l !in w[j].listeners
  }

  /** Signal `s` after `removeEventListener("abort", l)`. */
  function Strip(s: SignalRecord, l: Listener): (t: SignalRecord)
    ensures l !in t.listeners
    ensures t.aborted == s.aborted && t.reason == s.reason
    ensures l !in s.listeners ==> t == s
  {
    s.(listeners := Without(s.listeners, l))
  }

  /** The signals of `w` after `l` was removed from every one of them. */
  function RemoveEverywhere(w: seq<SignalRecord>, l: Listener): (v: seq<SignalRecord>)
    ensures |v| == |w| && NoneHolds(v, l)
    ensures forall j :: 0 <= j < |w| ==> v[j] == Strip(w[j], l)
  {
    seq(|w|, j requires 0 <= j < |w| => Strip(w[j], l))
  }

  /** Removing `l` from one signal first makes no difference to removing it everywhere. */
  lemma RemoveAfterStrip(w: seq<SignalRecord>, i: nat, s: SignalRecord, l: Listener)
    requires i < |w|
    ensures RemoveEverywhere(w[i := Strip(s, l)], l) == RemoveEverywhere(w[i := s], l)
  {
  }

  /** `v` is `w` after the signal at `i` was aborted with reason `r`, with
      listeners possibly moved about: the signal at `i` is aborted (with `r`
      unless it already was), and no other signal's flag or reason changed. */
  ghost predicate AbortedOnly(w: seq<SignalRecord>, v: seq<SignalRecord>, i: nat, r: Value)
  {
    |v| == |w| && i < |w| &&
    v[i].aborted && v[i].reason == Abort(w[i], r).reason &&
    forall j :: 0 <= j < |w| && j != i ==> v[j].aborted == w[j].aborted && v[j].reason == w[j].reason
  }

  /** Each way an abort event can end leaves every other signal's flag and
      reason as they were. */
  lemma AbortedOnlyCases(w: seq<SignalRecord>, i: nat, r: Value, l: Listener)
    requires i < |w|
    ensures w[i].aborted ==> AbortedOnly(w, w, i, r)
    ensures AbortedOnly(w, w[i := Abort(w[i], r)], i, r)
    ensures AbortedOnly(w, w[i := Strip(Abort(w[i], r), l)], i, r)
    ensures AbortedOnly(w, RemoveEverywhere(w[i := Abort(w[i], r)], l), i, r)
  {
  }

  /** The signals of `w` after `l` was added to the signal of every index in `ids`. */
  function AddOn(w: seq<SignalRecord>, ids: seq<nat>, l: Listener): (v: seq<SignalRecord>)
    requires forall k :: 0 <= k < |ids| ==> ids[k] < |w|
    ensures |v| == |w|
    ensures forall j :: 0 <= j < |w| ==>
      v[j] == if j in ids then w[j].(listeners := AddListener(w[j].listeners, l)) else w[j]
  {
    seq(|w|, j requires 0 <= j < |w| =>
      if j in ids then w[j].(listeners := AddListener(w[j].listeners, l)) else w[j])
  }
}
