/** The buyer's daily total against what was recorded and what the upstream confirmed. */
module ProtocolReporting {
  import opened Text
  import opened Policy
  import opened OrderKey
  import opened Idempotency
  import opened Protocol
  import opened ProtocolInvariant
  import opened ProtocolTheorems

  /** The units of the reports that count towards the daily total. */
  function ReportedUnits(audit: seq<AuditRecord>): int {
    if audit == [] then 0
    else
      var last := audit[|audit| - 1];
      ReportedUnits(audit[..|audit| - 1]) + (if Counts(last) then last.call.quantity else 0)
  }

  function Units(calls: seq<Call>): int {
    if calls == [] then 0 else Units(calls[..|calls| - 1]) + calls[|calls| - 1].quantity
  }

  function ConfirmedUnits(ledger: seq<Order>): int {
    if ledger == [] then 0
    else
      var last := ledger[|ledger| - 1];
      ConfirmedUnits(ledger[..|ledger| - 1]) + (if last.confirmed then last.call.quantity else 0)
  }

  /** The units of a collection of calls, whatever their order. */
  ghost function Total(calls: multiset<Call>): int
    decreases |calls|
  {
    if calls == multiset{} then 0
    else
      var c :| c in calls;
      c.quantity + Total(calls - multiset{c})
  }

  lemma {:induction false} TotalRemove(calls: multiset<Call>, c: Call)
    requires c in calls
    ensures Total(calls) == c.quantity + Total(calls - multiset{c})
    decreases |calls|
  {
    var d :| d in calls && Total(calls) == d.quantity + Total(calls - multiset{d});
    if c != d {
      TotalRemove(calls - multiset{d}, c);
      TotalRemove(calls - multiset{c}, d);
      assert calls - multiset{d} - multiset{c} == calls - multiset{c} - multiset{d};
    }
  }

  lemma TotalAdd(calls: multiset<Call>, c: Call)
    ensures Total(calls + multiset{c}) == Total(calls) + c.quantity
  {
    TotalRemove(calls + multiset{c}, c);
    assert calls + multiset{c} - multiset{c} == calls;
  }

  lemma {:induction false} ReportedIsTotal(audit: seq<AuditRecord>)
    ensures ReportedUnits(audit) == Total(Counted(audit))
  {
    if audit != [] {
      var front, last := audit[..|audit| - 1], audit[|audit| - 1];
      ReportedIsTotal(front);
      if Counts(last) {
        TotalAdd(Counted(front), last.call);
      } else {
        assert Counted(audit) == Counted(front);
      }
    }
  }

  lemma {:induction false} ConfirmedIsTotal(ledger: seq<Order>)
    ensures ConfirmedUnits(ledger) == Total(Confirmed(ledger))
  {
    if ledger != [] {
      var front, last := ledger[..|ledger| - 1], ledger[|ledger| - 1];
      ConfirmedIsTotal(front);
      if last.confirmed {
        TotalAdd(Confirmed(front), last.call);
      } else {
        assert Confirmed(ledger) == Confirmed(front);
      }
    }
  }

  /** Adding a sequence of calls to a collection adds their units. */
  lemma {:induction false} TotalOfSum(calls: multiset<Call>, more: seq<Call>)
    ensures Total(calls + multiset(more)) == Total(calls) + Units(more)
  {
    if more == [] {
      assert calls + multiset(more) == calls;
    } else {
      var front, last := more[..|more| - 1], more[|more| - 1];
      TotalOfSum(calls, front);
      TotalAdd(calls + multiset(front), last);
      LastApart(more);
      AddLast(calls, front, last);
    }
  }

  lemma AddLast(calls: multiset<Call>, front: seq<Call>, last: Call)
    ensures calls + multiset(front + [last]) == calls + multiset(front) + multiset{last}
  {
  }

  predicate Quiescent(s: State) {
    forall t | 0 <= t < |s.threads| :: s.threads[t].Idle?
  }

  lemma QuiescentTallies(s: State)
    requires Inv(s) && Quiescent(s)
    ensures Counted(s.audit) + multiset(s.lost) == multiset(s.recorded)
    ensures Confirmed(s.ledger) == multiset(s.recorded)
  {
    NothingPending(s.threads, |s.threads|);
    NothingUnderWay(s.ledger, multiset(s.results.Keys), s.failures, multiset(s.recorded),
                    s.audit, multiset(s.lost));
  }

  lemma NothingUnderWay(ledger: seq<Order>, keys: multiset<string>, failures: seq<Failure>,
      recorded: multiset<Call>, audit: seq<AuditRecord>, lost: multiset<Call>)
    requires OrdersBalance(ledger, keys, failures, recorded, None)
    requires ReportsBalance(audit, multiset{}, lost, recorded)
    ensures Counted(audit) + lost == recorded && Confirmed(ledger) == recorded
  {
    assert Counted(audit) + multiset{} + lost == Counted(audit) + lost;
  }

  lemma {:induction false} LostUnits(n: nat, events: seq<Event>, lost: seq<Call>)
    requires forall i | 0 <= i < |lost| :: lost[i] in MeasuredCalls(events)
    ensures Units(lost) >= 7 * |lost|
  {
    if lost != [] {
      LostUnits(n, events, lost[..|lost| - 1]);
      var call := lost[|lost| - 1];
      assert Measured(events, call);
      var i :| 0 <= i < |events| && events[i].Measure? && CallFor(events[i]) == Some(call);
      CallIsPolicy(events[i], call);
    }
  }

  /**
   * Once no call is under way: what the reports count, with what lost reports
   * would have counted, is what was recorded, call for call; the upstream
   * confirmed exactly the recorded calls; no key is recorded twice; and the
   * reported total is the recorded total exactly when no counting report was
   * lost, and less otherwise.
   */
  lemma ReportingIsConserved(n: nat, events: seq<Event>)
    requires Quiescent(Exec(n, events))
    ensures
      var s := Exec(n, events);
      && Counted(s.audit) + multiset(s.lost) == multiset(s.recorded)
      && KeysOf(s.recorded) == multiset(s.results.Keys)
      && ConfirmedUnits(s.ledger) == Units(s.recorded)
      && ReportedUnits(s.audit) + Units(s.lost) == Units(s.recorded)
      && (ReportedUnits(s.audit) == Units(s.recorded) <==> s.lost == [])
      && ReportedUnits(s.audit) <= Units(s.recorded)
  {
    var s := Exec(n, events);
    Reachable(n, events);
    QuiescentTallies(s);
    ReportedIsTotal(s.audit);
    ConfirmedIsTotal(s.ledger);
    TotalOfSum(Counted(s.audit), s.lost);
    TotalOfSum(multiset{}, s.recorded);
    assert multiset{} + multiset(s.recorded) == multiset(s.recorded);
    RunIsMeasured(n, events);
    LostUnits(n, events, s.lost);
  }

  /* --------------------------------------------------------------- replays */

  /** A report carries the record of its own key. */
  predicate ReportAgrees(results: Results, r: AuditRecord) {
    r.OrderRaised? ==> r.result.requestKey == r.call.key && Agrees(results, r.result)
  }

  predicate ReportsAgree(results: Results, audit: seq<AuditRecord>) {
    forall i | 0 <= i < |audit| :: ReportAgrees(results, audit[i])
  }

  lemma AuditGrows(s: State, e: Event) returns (more: seq<AuditRecord>)
    requires PhasesFit(s)
    ensures Step(s, e).audit == s.audit + more && ReportsAgree(s.results, more)
  {
    more := [];
    if e.Measure? {
      more := if s.At(e.t) && s.threads[e.t].Idle? && CallFor(e).None? then RefusalFor(e) else [];
    } else if e.CheckStatus? {
      more := [StatusChecked(e.storeId, e.orderId)];
    } else if (e.Report? || (e.ReportFails? && e.written)) && s.At(e.t) && s.threads[e.t].Reporting? {
      more := [OrderRaised(s.threads[e.t].call, s.threads[e.t].result)];
      assert Fits(s.results, s.threads[e.t]);
    }
  }

  lemma StepKeepsReportsAgree(s: State, e: Event)
    requires Inv(s) && ReportsAgree(s.results, s.audit)
    ensures ReportsAgree(Step(s, e).results, Step(s, e).audit)
  {
    var more := AuditGrows(s, e);
    forall k | k in s.results
      ensures k in Step(s, e).results && Step(s, e).results[k] == s.results[k]
    {
      StepKeepsEntry(s, e, k);
    }
    StillAgree(s.results, Step(s, e).results, s.audit + more);
  }

  lemma StillAgree(results: Results, after: Results, audit: seq<AuditRecord>)
    requires ReportsAgree(results, audit)
    requires forall k | k in results :: k in after && after[k] == results[k]
    ensures ReportsAgree(after, audit)
  {
    forall i | 0 <= i < |audit|
      ensures ReportAgrees(after, audit[i])
    {
      assert ReportAgrees(results, audit[i]);
    }
  }

  lemma {:induction false} RunReportsAgree(n: nat, events: seq<Event>)
    ensures ReportsAgree(Exec(n, events).results, Exec(n, events).audit)
  {
    if events != [] {
      var front := events[..|events| - 1];
      RunReportsAgree(n, front);
      Reachable(n, front);
      StepKeepsReportsAgree(Exec(n, front), events[|events| - 1]);
    }
  }

  lemma {:induction false} KeyIsRecorded(calls: seq<Call>, k: string)
    requires k in KeysOf(calls)
    ensures exists i | 0 <= i < |calls| :: calls[i].key == k
  {
    if calls[|calls| - 1].key != k {
      KeyIsRecorded(calls[..|calls| - 1], k);
    }
  }

  predicate SameOrder(a: Call, b: Call) {
    && a.position.storeId == b.position.storeId && a.position.sku == b.position.sku
    && a.quantity == b.quantity && a.date == b.date
  }

  lemma SameKeySameOrder(e: Event, a: Call, f: Event, b: Call)
    requires e.Measure? && CallFor(e) == Some(a) && IsIsoDate(e.date)
    requires f.Measure? && CallFor(f) == Some(b) && IsIsoDate(f.date)
    ensures a.key == b.key <==> SameOrder(a, b)
  {
    CallIsPolicy(e, a);
    CallIsPolicy(f, b);
    ValidateIdIff(e.storeId, 10);
    ValidateIdIff(e.sku, 20);
    ValidateIdIff(f.storeId, 10);
    ValidateIdIff(f.sku, 20);
    KeyInjective(KeyFields(a.position.storeId, a.position.sku, a.quantity, e.date),
                 KeyFields(b.position.storeId, b.position.sku, b.quantity, f.date));
  }

  /**
   * Whatever a report says was ordered, created or replayed, is what the one
   * recorded call with its key ordered: same store, stock unit, quantity and
   * date. A replay never shows the figures of a different order.
   */
  lemma ReportsDescribeTheRecord(n: nat, events: seq<Event>, i: nat)
    requires forall j | 0 <= j < |events| && events[j].Measure? :: IsIsoDate(events[j].date)
    requires i < |Exec(n, events).audit| && Exec(n, events).audit[i].OrderRaised?
    ensures
      var s := Exec(n, events);
      && Agrees(s.results, s.audit[i].result)
      && exists j | 0 <= j < |s.recorded| ::
        s.recorded[j].key == s.audit[i].result.requestKey && SameOrder(s.recorded[j], s.audit[i].call)
  {
    var s := Exec(n, events);
    var call := s.audit[i].call;
    RunReportsAgree(n, events);
    Reachable(n, events);
    RunIsMeasured(n, events);
    KeyIsRecorded(s.recorded, call.key);
    var j :| 0 <= j < |s.recorded| && s.recorded[j].key == call.key;
    assert Measured(events, call) && Measured(events, s.recorded[j]);
    var e :| 0 <= e < |events| && events[e].Measure? && CallFor(events[e]) == Some(call);
    var f :| 0 <= f < |events| && events[f].Measure? && CallFor(events[f]) == Some(s.recorded[j]);
    SameKeySameOrder(events[f], s.recorded[j], events[e], call);
  }

  /* -------------------------------------------------------------- progress */

  function Weight(phase: Phase): nat {
    match phase
    case Idle => 0
    case Reporting(_, _) => 1
    case Answered(_, _) => 2
    case Posting(_) => 3
    case Checking(_) => 4
    case Waiting(_) => 5
  }

  function WeightTo(threads: seq<Phase>, n: nat): nat
    requires n <= |threads|
  {
    if n == 0 then 0 else WeightTo(threads, n - 1) + Weight(threads[n - 1])
  }

  lemma {:induction false} WeightOfUpdate(threads: seq<Phase>, t: nat, phase: Phase, n: nat)
    requires t < |threads| && n <= |threads|
    ensures WeightTo(threads[t := phase], n)
      == WeightTo(threads, n) + (if t < n then Weight(phase) - Weight(threads[t]) else 0)
  {
    if n > 0 {
      WeightOfUpdate(threads, t, phase, n - 1);
    }
  }

  /** What the thread can do next when nothing goes wrong. */
  function Next(phase: Phase, t: nat): Event
    requires !phase.Idle?
  {
    match phase
    case Waiting(_) => Acquire(t)
    case Checking(_) => Lookup(t)
    case Posting(_) => PostSucceeds(t, Response(None, None))
    case Answered(_, _) => Record(t)
    case Reporting(_, _) => Report(t)
  }

  lemma CanMove(s: State, t: nat)
    requires s.At(t) && !s.threads[t].Idle? && (s.threads[t].Waiting? ==> s.lock.None?)
    ensures Mover(s, Next(s.threads[t], t)) == Some(t)
  {
    match s.threads[t] {
      case Waiting(_) =>
      case Checking(_) =>
      case Posting(_) =>
      case Answered(_, _) =>
      case Reporting(_, _) =>
    }
  }

  /** The lock never blocks for good: its holder can go on, and if it is free anyone can. */
  lemma SomeThreadCanMove(s: State) returns (t: nat)
    requires MutualExclusion(s) && !Quiescent(s)
    ensures s.At(t) && !s.threads[t].Idle? && Mover(s, Next(s.threads[t], t)) == Some(t)
  {
    if s.lock.Some? {
      t := s.lock.value;
      assert Critical(s.threads[t]);
    } else {
      t :| t < |s.threads| && !s.threads[t].Idle?;
    }
    CanMove(s, t);
  }

  lemma NextIsLighter(s: State, t: nat)
    requires s.At(t) && !s.threads[t].Idle? && Mover(s, Next(s.threads[t], t)) == Some(t)
    ensures
      var s' := Step(s, Next(s.threads[t], t));
      && |s'.threads| == |s.threads| && s'.lost == s.lost && s'.failures == s.failures
      && s'.threads == s.threads[t := s'.threads[t]] && Weight(s'.threads[t]) < Weight(s.threads[t])
  {
  }

  /** From every reachable state all calls can finish, losing no report and raising no post. */
  lemma {:induction false} CanFinish(s: State) returns (events: seq<Event>)
    requires Inv(s)
    ensures Quiescent(Run(s, events))
    ensures Run(s, events).lost == s.lost && Run(s, events).failures == s.failures
    decreases WeightTo(s.threads, |s.threads|)
  {
    if Quiescent(s) {
      events := [];
    } else {
      var t := SomeThreadCanMove(s);
      var e := Next(s.threads[t], t);
      NextIsLighter(s, t);
      WeightOfUpdate(s.threads, t, Step(s, e).threads[t], |s.threads|);
      StepKeepsInv(s, e);
      var rest := CanFinish(Step(s, e));
      RunOne(s, e);
      RunConcat(s, [e], rest);
      events := [e] + rest;
    }
  }
}
