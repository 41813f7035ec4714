/** How often the post is invoked for a key, and exactly when that is at most once. */
module ProtocolInvocations {
  import opened Text
  import opened Idempotency
  import opened Protocol
  import opened ProtocolInvariant
  import opened ProtocolTheorems

  /** Every invocation is recorded, has raised, or is under way. */
  predicate InvocationsBalance(invoked: seq<Call>, keys: multiset<string>, failures: seq<Failure>,
      invoking: Option<Call>)
  {
    KeysOf(invoked) == keys + RaisedKeys(failures) + OneKey(invoking)
  }

  predicate InvocationsAccounted(s: State) {
    InvocationsBalance(s.invoked, multiset(s.results.Keys), s.failures, Invoking(s))
  }

  /** The event invokes the post: a lookup that finds no result. */
  predicate Invokes(s: State, e: Event) {
    e.Lookup? && Mover(s, e).Some? && s.threads[e.t].call.key !in s.results
  }

  /* ------------------------------------------------------------- tallies */

  lemma InvokeTally(invoked: seq<Call>, keys: multiset<string>, failures: seq<Failure>, call: Call)
    requires InvocationsBalance(invoked, keys, failures, None)
    ensures InvocationsBalance(invoked + [call], keys, failures, Some(call))
  {
    KeysOfOneMore(invoked, call);
  }

  lemma RaisedKeysOfOneMore(failures: seq<Failure>, f: Failure)
    ensures RaisedKeys(failures + [f]) == RaisedKeys(failures) + multiset{f.call.key}
  {
    assert (failures + [f])[..|failures|] == failures;
  }

  lemma FailTally(invoked: seq<Call>, keys: multiset<string>, failures: seq<Failure>, f: Failure)
    requires InvocationsBalance(invoked, keys, failures, Some(f.call))
    ensures InvocationsBalance(invoked, keys, failures + [f], None)
  {
    RaisedKeysOfOneMore(failures, f);
  }

  lemma SettleTally(invoked: seq<Call>, keys: set<string>, failures: seq<Failure>, call: Call)
    requires InvocationsBalance(invoked, multiset(keys), failures, Some(call)) && call.key !in keys
    ensures InvocationsBalance(invoked, multiset(keys + {call.key}), failures, None)
  {
    assert multiset(keys + {call.key}) == multiset(keys) + multiset{call.key};
  }

  /* --------------------------------------------------------------- steps */

  lemma MoveInvoking(s: State, s': State, t: nat, phase: Phase)
    requires MutualExclusion(s) && Moves(s, s', t, phase)
    ensures Invoking(s') ==
            if IsInvoking(phase) then Some(phase.call) else if IsInvoking(s.threads[t]) then None else Invoking(s)
    ensures IsInvoking(s.threads[t]) ==> Invoking(s) == Some(s.threads[t].call)
    ensures IsInvoking(phase) && !IsInvoking(s.threads[t]) ==> Invoking(s) == None
  {
    assert Critical(s.threads[t]) <==> s.lock == Some(t);
  }

  /** The event's part in an invocation. */
  predicate Aside(s: State, e: Event) {
    !Invokes(s, e) && (Mover(s, e).None? || !(e.PostRaises? || e.Record?))
  }

  lemma AsideFields(s: State, e: Event)
    requires Aside(s, e)
    ensures Step(s, e).invoked == s.invoked && Step(s, e).failures == s.failures && Step(s, e).results == s.results
  {
    match e {
      case Tick =>
      case CheckStatus(_, _) =>
      case Measure(_, _, _, _, _, _, _) =>
      case Acquire(_) =>
      case Lookup(_) =>
      case PostSucceeds(_, _) =>
      case PostRaises(_, _) =>
      case Record(_) =>
      case Report(_) =>
      case ReportFails(_, _) =>
    }
  }

  /** Where the moving thread stands before and after. */
  lemma PhaseAfter(s: State, e: Event)
    requires Mover(s, e).Some?
    ensures
      var t := Mover(s, e).value;
      var was, now := s.threads[t], Step(s, e).threads[t];
      && (IsInvoking(was) <==> e.PostSucceeds? || e.PostRaises? || e.Record?)
      && (IsInvoking(now) <==> Invokes(s, e) || e.PostSucceeds?)
      && (IsInvoking(now) ==> now.call == was.call)
  {
    match e {
      case Measure(_, _, _, _, _, _, _) =>
      case Acquire(_) =>
      case Lookup(_) =>
      case PostSucceeds(_, _) =>
      case PostRaises(_, _) =>
      case Record(_) =>
      case Report(_) =>
      case ReportFails(_, _) =>
    }
  }

  lemma InvokingAfter(s: State, e: Event)
    requires MutualExclusion(s) && PhasesFit(s) && WellKept(s.results)
    ensures Aside(s, e) ==> Invoking(Step(s, e)) == Invoking(s)
    ensures Invokes(s, e) ==> Invoking(s) == None && Invoking(Step(s, e)) == Some(s.threads[e.t].call)
    ensures !Aside(s, e) && !Invokes(s, e) ==>
        && Invoking(s) == Some(s.threads[e.t].call) && Invoking(Step(s, e)) == None
        && s.threads[e.t].call.key !in s.results
  {
    StepMoves(s, e);
    var t := Mover(s, e);
    if t.Some? {
      MoveInvoking(s, Step(s, e), t.value, Step(s, e).threads[t.value]);
      PhaseAfter(s, e);
      assert Fits(s.results, s.threads[t.value]);
    }
  }

  lemma SameInvocations(s: State, s': State)
    requires InvocationsAccounted(s) && Invoking(s') == Invoking(s)
    requires s'.invoked == s.invoked && s'.failures == s.failures && s'.results == s.results
    ensures InvocationsAccounted(s')
  {
  }

  lemma InvokeKeepsInvocations(s: State, e: Event)
    requires Invokes(s, e) && Invoking(s) == None && InvocationsAccounted(s)
    requires Invoking(Step(s, e)) == Some(s.threads[e.t].call)
    ensures InvocationsAccounted(Step(s, e))
  {
    InvokeTally(s.invoked, multiset(s.results.Keys), s.failures, s.threads[e.t].call);
  }

  lemma RaiseFields(s: State, e: Event)
    requires e.PostRaises? && Mover(s, e).Some?
    ensures Step(s, e).invoked == s.invoked && Step(s, e).results == s.results
    ensures Step(s, e).failures == s.failures + [Failure(s.threads[e.t].call, e.applied)]
  {
  }

  lemma RaiseKeepsInvocations(s: State, e: Event)
    requires e.PostRaises? && Mover(s, e).Some? && InvocationsAccounted(s)
    requires Invoking(s) == Some(s.threads[e.t].call) && Invoking(Step(s, e)) == None
    ensures InvocationsAccounted(Step(s, e))
  {
    RaiseFields(s, e);
    FailTally(s.invoked, multiset(s.results.Keys), s.failures, Failure(s.threads[e.t].call, e.applied));
  }

  lemma RecordKeepsInvocations(s: State, e: Event)
    requires e.Record? && Mover(s, e).Some? && InvocationsAccounted(s) && s.threads[e.t].call.key !in s.results
    requires Invoking(s) == Some(s.threads[e.t].call) && Invoking(Step(s, e)) == None
    ensures InvocationsAccounted(Step(s, e))
  {
    var call := s.threads[e.t].call;
    assert Step(s, e).results.Keys == s.results.Keys + {call.key};
    SettleTally(s.invoked, s.results.Keys, s.failures, call);
  }

  lemma KeepsInvocations(s: State, e: Event)
    requires MutualExclusion(s) && PhasesFit(s) && WellKept(s.results) && InvocationsAccounted(s)
    ensures InvocationsAccounted(Step(s, e))
  {
    InvokingAfter(s, e);
    if Aside(s, e) {
      AsideFields(s, e);
      SameInvocations(s, Step(s, e));
    } else if Invokes(s, e) {
      InvokeKeepsInvocations(s, e);
    } else if e.PostRaises? {
      RaiseKeepsInvocations(s, e);
    } else {
      RecordKeepsInvocations(s, e);
    }
  }

  lemma {:induction false} RunKeepsInvocations(n: nat, events: seq<Event>)
    ensures InvocationsAccounted(Exec(n, events))
  {
    if events == [] {
      assert Invoking(Init(n)) == None;
    } else {
      var front := events[..|events| - 1];
      RunKeepsInvocations(n, front);
      Reachable(n, front);
      HandedIsConsistent(Exec(n, front).history);
      KeepsInvocations(Exec(n, front), events[|events| - 1]);
    }
  }

  /* ------------------------------------------------------------ theorems */

  function UnderWay01(s: State, k: string): nat {
    if Invoking(s).Some? && Invoking(s).value.key == k then 1 else 0
  }

  lemma UnderWayIsUnrecorded(n: nat, events: seq<Event>, k: string)
    ensures var s := Exec(n, events); Recorded01(s, k) + UnderWay01(s, k) <= 1
  {
    Reachable(n, events);
    var s := Exec(n, events);
    if Invoking(s).Some? {
      assert Fits(s.results, s.threads[s.lock.value]);
    }
  }

  /**
   * How often the post has been invoked for a key, in every run: once if the key
   * is recorded or its post is under way, and once for every post that raised.
   */
  lemma InvocationsPerKey(n: nat, events: seq<Event>, k: string)
    ensures
      var s := Exec(n, events);
      KeysOf(s.invoked)[k] == Recorded01(s, k) + UnderWay01(s, k) + RaisedKeys(s.failures)[k]
  {
    RunKeepsInvocations(n, events);
  }

  /**
   * The store promises that an operation is invoked at most once for a key. It
   * keeps that promise in exactly the runs in which no post for the key raised,
   * or one did and the key was not tried again.
   */
  lemma AtMostOnceIff(n: nat, events: seq<Event>, k: string)
    ensures
      var s := Exec(n, events);
      KeysOf(s.invoked)[k] <= 1 <==>
        || RaisedKeys(s.failures)[k] == 0
        || (RaisedKeys(s.failures)[k] == 1 && k !in s.results && UnderWay01(s, k) == 0)
  {
    InvocationsPerKey(n, events, k);
    UnderWayIsUnrecorded(n, events, k);
  }

  lemma OtherKeyInvoked(invoked: seq<Call>, failures: seq<Failure>, call: Call, applied: bool, k: string)
    requires call.key != k
    ensures KeysOf(invoked + [call])[k] == KeysOf(invoked)[k]
    ensures RaisedKeys(failures + [Failure(call, applied)])[k] == RaisedKeys(failures)[k]
  {
    KeysOfOneMore(invoked, call);
    RaisedKeysOfOneMore(failures, Failure(call, applied));
  }

  lemma StepInvokesOthers(s: State, e: Event, k: string)
    requires Inv(s) && k in s.results
    ensures KeysOf(Step(s, e).invoked)[k] == KeysOf(s.invoked)[k]
    ensures RaisedKeys(Step(s, e).failures)[k] == RaisedKeys(s.failures)[k]
  {
    HandedIsConsistent(s.history);
    InvokingAfter(s, e);
    if Aside(s, e) {
      AsideFields(s, e);
    } else {
      OtherKeyInvoked(s.invoked, s.failures, s.threads[e.t].call, e.PostRaises? && e.applied, k);
    }
  }

  /** Once a key is recorded no post for it is invoked again, so none raises again either. */
  lemma {:induction false} RecordedEndsPosting(n: nat, events: seq<Event>, more: seq<Event>, k: string)
    requires k in Exec(n, events).results
    ensures
      var s, s' := Exec(n, events), Exec(n, events + more);
      && KeysOf(s'.invoked)[k] == KeysOf(s.invoked)[k]
      && RaisedKeys(s'.failures)[k] == RaisedKeys(s.failures)[k]
  {
    if more == [] {
      assert events + more == events;
    } else {
      var front := more[..|more| - 1];
      FrontOfSum(events, more);
      RecordedEndsPosting(n, events, front, k);
      RecordedIsFinal(n, events, front, k);
      Reachable(n, events + front);
      StepInvokesOthers(Exec(n, events + front), more[|more| - 1], k);
    }
  }
}
