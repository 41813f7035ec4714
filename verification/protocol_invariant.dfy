/** Every event keeps the protocol's invariant. */
module ProtocolInvariant {
  import opened Text
  import opened Idempotency
  import opened Protocol

  lemma {:induction false} NothingPending(threads: seq<Phase>, n: nat)
    requires n <= |threads| && forall t: nat | t < |threads| :: PendingIn(threads[t]) == multiset{}
    ensures PendingTo(threads, n) == multiset{}
  {
    if n > 0 {
      NothingPending(threads, n - 1);
    }
  }

  lemma InitInv(n: nat)
    ensures Inv(Init(n))
  {
    NothingPending(Init(n).threads, n);
  }

  lemma HistoryGrows(history: seq<Execution>, e: Execution)
    ensures
      var (after, executed) := ExecuteLocked(StoreAfter(history), e.key, e.reply, e.now);
      && StoreAfter(history + [e]) == after
      && Handed(history + [e]) == Handed(history) + (if executed.Returned? then [executed.result] else [])
  {
    assert (history + [e])[..|history|] == history;
  }

  /* --------------------------------------------------------------- tallies */

  lemma PostTally(ledger: seq<Order>, keys: multiset<string>, failures: seq<Failure>, recorded: multiset<Call>,
      call: Call)
    requires OrdersBalance(ledger, keys, failures, recorded, None)
    ensures OrdersBalance(ledger + [Order(call, true)], keys, failures, recorded, Some(call))
  {
    assert (ledger + [Order(call, true)])[..|ledger|] == ledger;
  }

  lemma RaiseTally(ledger: seq<Order>, keys: multiset<string>, failures: seq<Failure>, recorded: multiset<Call>,
      call: Call, applied: bool)
    requires OrdersBalance(ledger, keys, failures, recorded, None)
    ensures OrdersBalance(ledger + (if applied then [Order(call, false)] else []), keys,
                          failures + [Failure(call, applied)], recorded, None)
  {
    assert (failures + [Failure(call, applied)])[..|failures|] == failures;
    if applied {
      assert (ledger + [Order(call, false)])[..|ledger|] == ledger;
    } else {
      assert ledger + [] == ledger;
    }
  }

  lemma RecordTally(ledger: seq<Order>, keys: set<string>, failures: seq<Failure>, recorded: multiset<Call>, call: Call)
    requires OrdersBalance(ledger, multiset(keys), failures, recorded, Some(call)) && call.key !in keys
    ensures OrdersBalance(ledger, multiset(keys + {call.key}), failures, recorded + multiset{call}, None)
  {
    assert multiset(keys + {call.key}) == multiset(keys) + multiset{call.key};
  }

  lemma ReportTally(audit: seq<AuditRecord>, pending: multiset<Call>, lost: multiset<Call>, recorded: multiset<Call>,
      call: Call, result: OperationResult)
    requires ReportsBalance(audit, pending + PendingIn(Reporting(call, result)), lost, recorded)
    ensures ReportsBalance(audit + [OrderRaised(call, result)], pending, lost, recorded)
    ensures ReportsBalance(audit, pending, lost + PendingIn(Reporting(call, result)), recorded)
  {
    assert (audit + [OrderRaised(call, result)])[..|audit|] == audit;
  }

  /** Replacing one thread's phase changes what is pending by that thread's share. */
  lemma PendingWithout(threads: seq<Phase>, t: nat, phase: Phase)
    requires t < |threads| && PendingIn(threads[t]) == multiset{}
    ensures Pending(threads[t := phase]) == Pending(threads) + PendingIn(phase)
  {
    PendingOfUpdate(threads, t, phase);
  }

  lemma KeysOfOneMore(calls: seq<Call>, c: Call)
    ensures KeysOf(calls + [c]) == KeysOf(calls) + multiset{c.key}
  {
    assert (calls + [c])[..|calls|] == calls;
  }

  /* --------------------------------------------------------------- clauses */

  /** What a step does to the thread that takes it, the lock and the results. */
  predicate Moves(s: State, s': State, t: nat, phase: Phase) {
    && s.At(t)
    && s'.threads == s.threads[t := phase]
    && s'.lock == (if Critical(phase) then Some(t) else if s.lock == Some(t) then None else s.lock)
    && (Critical(phase) ==> s.lock.None? || s.lock == Some(t))
    && (s'.results == s.results || AddsEntry(s, s', t))
    && Fits(s'.results, phase)
  }

  predicate AddsEntry(s: State, s': State, t: nat)
    requires s.At(t)
  {
    && s.threads[t].Answered?
    && s.threads[t].call.key in s'.results
    && s'.results == s.results[s.threads[t].call.key := s'.results[s.threads[t].call.key]]
  }

  lemma MoveKeepsLocks(s: State, s': State, t: nat, phase: Phase)
    requires MutualExclusion(s) && PhasesFit(s) && Moves(s, s', t, phase)
    ensures MutualExclusion(s') && PhasesFit(s')
  {
    forall u: nat | u < |s'.threads| && u != t
      ensures Fits(s'.results, s'.threads[u])
    {
      assert Critical(s.threads[u]) ==> s.lock == Some(u);
      assert Fits(s.results, s.threads[u]);
    }
  }

  lemma MoveInFlight(s: State, s': State, t: nat, phase: Phase)
    requires MutualExclusion(s) && Moves(s, s', t, phase)
    ensures InFlight(s') ==
            if phase.Answered? then Some(phase.call) else if s.threads[t].Answered? then None else InFlight(s)
    ensures s.threads[t].Answered? ==> InFlight(s) == Some(s.threads[t].call)
    ensures phase.Answered? && !s.threads[t].Answered? ==> InFlight(s) == None
    ensures s.threads[t].Posting? ==> InFlight(s) == None
  {
    assert Critical(s.threads[t]) <==> s.lock == Some(t);
  }

  /** The thread an event moves, when it is possible. */
  function Mover(s: State, e: Event): Option<nat> {
    match e
    case Tick => None
    case CheckStatus(_, _) => None
    case Measure(t, _, _, _, _, _, _) =>
      if s.At(t) && s.threads[t].Idle? && CallFor(e).Some? then Some(t) else None
    case Acquire(t) => if s.At(t) && s.threads[t].Waiting? && s.lock.None? then Some(t) else None
    case Lookup(t) => if s.At(t) && s.threads[t].Checking? then Some(t) else None
    case PostSucceeds(t, _) => if s.At(t) && s.threads[t].Posting? then Some(t) else None
    case PostRaises(t, _) => if s.At(t) && s.threads[t].Posting? then Some(t) else None
    case Record(t) => if s.At(t) && s.threads[t].Answered? then Some(t) else None
    case Report(t) => if s.At(t) && s.threads[t].Reporting? then Some(t) else None
    case ReportFails(t, _) => if s.At(t) && s.threads[t].Reporting? then Some(t) else None
  }

  lemma StepMoves(s: State, e: Event)
    requires MutualExclusion(s) && PhasesFit(s) && WellKept(s.results)
    ensures
      var t := Mover(s, e);
      if t.Some? then s.At(t.value) && Moves(s, Step(s, e), t.value, Step(s, e).threads[t.value])
      else Step(s, e).threads == s.threads && Step(s, e).lock == s.lock && Step(s, e).results == s.results
  {
    var t := Mover(s, e);
    if t.Some? {
      assert Critical(s.threads[t.value]) <==> s.lock == Some(t.value);
      assert Fits(s.results, s.threads[t.value]);
    }
  }

  lemma KeepsLocks(s: State, e: Event)
    requires MutualExclusion(s) && PhasesFit(s) && WellKept(s.results)
    ensures MutualExclusion(Step(s, e)) && PhasesFit(Step(s, e))
  {
    StepMoves(s, e);
    var t := Mover(s, e);
    if t.Some? {
      MoveKeepsLocks(s, Step(s, e), t.value, Step(s, e).threads[t.value]);
    }
  }

  lemma PostKeepsOrders(s: State, e: Event)
    requires e.PostSucceeds? && Mover(s, e).Some? && InFlight(s) == None && OrdersAccounted(s)
    requires InFlight(Step(s, e)) == Some(s.threads[e.t].call)
    ensures OrdersAccounted(Step(s, e))
  {
    PostTally(s.ledger, multiset(s.results.Keys), s.failures, multiset(s.recorded), s.threads[e.t].call);
  }

  lemma RaiseKeepsOrders(s: State, e: Event)
    requires e.PostRaises? && Mover(s, e).Some? && InFlight(s) == None && OrdersAccounted(s)
    requires InFlight(Step(s, e)) == None
    ensures OrdersAccounted(Step(s, e))
  {
    RaiseTally(s.ledger, multiset(s.results.Keys), s.failures, multiset(s.recorded), s.threads[e.t].call, e.applied);
  }

  lemma RecordKeepsOrders(s: State, e: Event)
    requires e.Record? && Mover(s, e).Some? && InFlight(s) == Some(s.threads[e.t].call) && OrdersAccounted(s)
    requires InFlight(Step(s, e)) == None && Fits(s.results, s.threads[e.t])
    ensures OrdersAccounted(Step(s, e))
  {
    var call := s.threads[e.t].call;
    assert Step(s, e).results.Keys == s.results.Keys + {call.key};
    RecordTally(s.ledger, s.results.Keys, s.failures, multiset(s.recorded), call);
  }

  /** The event has no part in an order's way from post to record. */
  predicate Unrelated(s: State, e: Event) {
    Mover(s, e).None? || !(e.PostSucceeds? || e.PostRaises? || e.Record?)
  }

  lemma UnrelatedFields(s: State, e: Event)
    requires Unrelated(s, e)
    ensures Step(s, e).ledger == s.ledger && Step(s, e).failures == s.failures
    ensures Step(s, e).results == s.results && Step(s, e).recorded == s.recorded
  {
    match e {
      case Tick =>
      case CheckStatus(_, _) =>
      case Measure(_, _, _, _, _, _, _) =>
      case Acquire(_) =>
      case Lookup(_) =>
      case PostSucceeds(_, _) =>
      case PostRaises(_, _) =>
      case Record(_) =>
      case Report(_) =>
      case ReportFails(_, _) =>
    }
  }

  lemma SameKeepsOrders(s: State, s': State)
    requires OrdersAccounted(s) && InFlight(s') == InFlight(s)
    requires s'.ledger == s.ledger && s'.failures == s.failures
    requires s'.results == s.results && s'.recorded == s.recorded
    ensures OrdersAccounted(s')
  {
  }

  lemma FlightAfter(s: State, e: Event)
    requires MutualExclusion(s) && PhasesFit(s) && WellKept(s.results)
    ensures Unrelated(s, e) ==> InFlight(Step(s, e)) == InFlight(s)
    ensures !Unrelated(s, e) ==> Fits(s.results, s.threads[e.t])
    ensures !Unrelated(s, e) ==> InFlight(s) == if e.Record? then Some(s.threads[e.t].call) else None
    ensures !Unrelated(s, e) ==> InFlight(Step(s, e)) == if e.PostSucceeds? then Some(s.threads[e.t].call) else None
  {
    StepMoves(s, e);
    var t := Mover(s, e);
    if t.Some? {
      MoveInFlight(s, Step(s, e), t.value, Step(s, e).threads[t.value]);
    }
  }

  lemma KeepsOrders(s: State, e: Event)
    requires MutualExclusion(s) && PhasesFit(s) && WellKept(s.results) && OrdersAccounted(s)
    ensures OrdersAccounted(Step(s, e))
  {
    FlightAfter(s, e);
    if Unrelated(s, e) {
      UnrelatedFields(s, e);
      SameKeepsOrders(s, Step(s, e));
    } else if e.PostSucceeds? {
      PostKeepsOrders(s, e);
    } else if e.PostRaises? {
      RaiseKeepsOrders(s, e);
    } else {
      RecordKeepsOrders(s, e);
    }
  }

  /** The reporting thread's share of what is pending moves to the audit or is lost. */
  lemma ReportKeepsReports(s: State, s': State, t: nat)
    requires s.At(t) && s.threads[t].Reporting? && ReportsAccounted(s)
    requires s'.threads == s.threads[t := Idle] && s'.recorded == s.recorded
    requires
      var Reporting(call, result) := s.threads[t];
      || (s'.audit == s.audit + [OrderRaised(call, result)] && s'.lost == s.lost)
      || (s'.audit == s.audit && multiset(s'.lost) == multiset(s.lost) + PendingIn(s.threads[t]))
    ensures ReportsAccounted(s')
  {
    var Reporting(call, result) := s.threads[t];
    PendingOfUpdate(s.threads, t, Idle);
    ReportTally(s.audit, Pending(s'.threads), multiset(s.lost), multiset(s.recorded), call, result);
  }

  lemma OtherRecordKeepsReports(s: State, r: AuditRecord)
    requires ReportsAccounted(s) && !r.OrderRaised?
    ensures ReportsAccounted(s.(audit := s.audit + [r]))
  {
    assert (s.audit + [r])[..|s.audit|] == s.audit;
  }

  lemma MoveFields(s: State, e: Event)
    requires Mover(s, e).Some? && !s.threads[Mover(s, e).value].Reporting?
    ensures |Step(s, e).threads| == |s.threads|
    ensures Step(s, e).threads == s.threads[Mover(s, e).value := Step(s, e).threads[Mover(s, e).value]]
    ensures Step(s, e).audit == s.audit && Step(s, e).lost == s.lost
    ensures multiset(Step(s, e).recorded)
      == multiset(s.recorded) + PendingIn(Step(s, e).threads[Mover(s, e).value])
  {
    match e {
      case Tick =>
      case CheckStatus(_, _) =>
      case Measure(_, _, _, _, _, _, _) =>
      case Acquire(_) =>
      case Lookup(_) =>
      case PostSucceeds(_, _) =>
      case PostRaises(_, _) =>
      case Record(_) =>
      case Report(_) =>
      case ReportFails(_, _) =>
    }
  }

  lemma MoveKeepsReports(s: State, s': State, t: nat)
    requires s.At(t) && |s'.threads| == |s.threads| && !s.threads[t].Reporting? && ReportsAccounted(s)
    requires s'.threads == s.threads[t := s'.threads[t]] && s'.audit == s.audit && s'.lost == s.lost
    requires multiset(s'.recorded) == multiset(s.recorded) + PendingIn(s'.threads[t])
    ensures ReportsAccounted(s')
  {
    var phase := s'.threads[t];
    PendingWithout(s.threads, t, phase);
    RecordedOneMore(s.audit, Pending(s.threads), multiset(s.lost), multiset(s.recorded), PendingIn(phase));
  }

  lemma RecordedOneMore(audit: seq<AuditRecord>, pending: multiset<Call>, lost: multiset<Call>,
      recorded: multiset<Call>, more: multiset<Call>)
    requires ReportsBalance(audit, pending, lost, recorded)
    ensures ReportsBalance(audit, pending + more, lost, recorded + more)
  {
  }

  lemma StillKeepsReports(s: State, e: Event)
    requires Mover(s, e).None? && ReportsAccounted(s)
    ensures ReportsAccounted(Step(s, e))
  {
    if e.Measure? && s.At(e.t) && s.threads[e.t].Idle? {
      if RefusalFor(e) == [] {
        assert s.audit + [] == s.audit;
      } else {
        OtherRecordKeepsReports(s, RefusalFor(e)[0]);
      }
    } else if e.CheckStatus? {
      OtherRecordKeepsReports(s, StatusChecked(e.storeId, e.orderId));
    }
  }

  lemma KeepsReports(s: State, e: Event)
    requires ReportsAccounted(s)
    ensures ReportsAccounted(Step(s, e))
  {
    var t := Mover(s, e);
    if t.None? {
      StillKeepsReports(s, e);
    } else if e.Report? || e.ReportFails? {
      ReportKeepsReports(s, Step(s, e), t.value);
    } else {
      MoveFields(s, e);
      MoveKeepsReports(s, Step(s, e), t.value);
    }
  }

  /** A completed execution changes store and results handed out as `ExecuteLocked` says. */
  lemma ExecutionKeepsLinear(s: State, s': State, e: Execution)
    requires Linear(s) && s'.history == s.history + [e]
    requires
      var (after, executed) := ExecuteLocked(s.results, e.key, e.reply, e.now);
      && s'.results == after
      && s'.handed == s.handed + (if executed.Returned? then [executed.result] else [])
    ensures Linear(s')
  {
    HistoryGrows(s.history, e);
  }

  lemma KeepsLinear(s: State, e: Event)
    requires PhasesFit(s) && Linear(s)
    ensures Linear(Step(s, e))
  {
    var t, s' := Mover(s, e), Step(s, e);
    if t.Some? && |s'.history| > |s.history| {
      assert Fits(s.results, s.threads[t.value]);
      ExecutionKeepsLinear(s, s', s'.history[|s.history|]);
    }
  }

  lemma RecordKeepsRecorded(recorded: seq<Call>, keys: set<string>, call: Call)
    requires KeysOf(recorded) == multiset(keys) && call.key !in keys
    ensures KeysOf(recorded + [call]) == multiset(keys + {call.key})
  {
    KeysOfOneMore(recorded, call);
  }

  lemma KeepsRecorded(s: State, e: Event)
    requires PhasesFit(s) && RecordedMatches(s)
    ensures RecordedMatches(Step(s, e))
  {
    if e.Record? && Mover(s, e).Some? {
      var call := s.threads[e.t].call;
      assert Fits(s.results, s.threads[e.t]);
      RecordKeepsRecorded(s.recorded, s.results.Keys, call);
      assert Step(s, e).results.Keys == s.results.Keys + {call.key};
    } else {
      UnrelatedRecords(s, e);
    }
  }

  lemma UnrelatedRecords(s: State, e: Event)
    requires Mover(s, e).None? || !e.Record?
    ensures Step(s, e).results == s.results && Step(s, e).recorded == s.recorded
  {
    match e {
      case Tick =>
      case CheckStatus(_, _) =>
      case Measure(_, _, _, _, _, _, _) =>
      case Acquire(_) =>
      case Lookup(_) =>
      case PostSucceeds(_, _) =>
      case PostRaises(_, _) =>
      case Record(_) =>
      case Report(_) =>
      case ReportFails(_, _) =>
    }
  }

  lemma StepKeepsInv(s: State, e: Event)
    requires Inv(s)
    ensures Inv(Step(s, e))
  {
    HandedIsConsistent(s.history);
    KeepsLocks(s, e);
    KeepsOrders(s, e);
    KeepsReports(s, e);
    KeepsRecorded(s, e);
    KeepsLinear(s, e);
  }

  lemma {:induction false} RunKeepsInv(s: State, events: seq<Event>)
    requires Inv(s)
    ensures Inv(Run(s, events))
  {
    if events != [] {
      RunKeepsInv(s, events[..|events| - 1]);
      StepKeepsInv(Run(s, events[..|events| - 1]), events[|events| - 1]);
    }
  }
}
