/** What holds in every run of the replenishment write protocol. */
module ProtocolTheorems {
  import opened Text
  import opened Policy
  import opened OrderKey
  import opened Idempotency
  import opened Protocol
  import opened ProtocolInvariant

  function Exec(n: nat, events: seq<Event>): State {
    Run(Init(n), events)
  }

  lemma Reachable(n: nat, events: seq<Event>)
    ensures Inv(Exec(n, events))
  {
    InitInv(n);
    RunKeepsInv(Init(n), events);
  }

  lemma {:induction false} RunConcat(s: State, events: seq<Event>, more: seq<Event>)
    ensures Run(s, events + more) == Run(Run(s, events), more)
  {
    if more == [] {
      assert events + more == events;
    } else {
      var front := more[..|more| - 1];
      FrontOfSum(events, more);
      RunConcat(s, events, front);
    }
  }

  /* -------------------------------------------------------- deduplication */

  function Recorded01(s: State, k: string): nat {
    if k in s.results then 1 else 0
  }

  lemma {:induction false} AppliedAreRaised(failures: seq<Failure>)
    ensures AppliedKeys(failures) <= RaisedKeys(failures)
  {
    if failures != [] {
      AppliedAreRaised(failures[..|failures| - 1]);
    }
  }

  /**
   * The number of upstream orders a key causes, exactly: one if it is recorded
   * or a confirmed post is about to be, and one for each post that raised after
   * taking effect.
   */
  lemma OrdersPerKey(n: nat, events: seq<Event>, k: string)
    ensures
      var s := Exec(n, events);
      && OrderedKeys(s.ledger)[k] == Recorded01(s, k) + OneKey(InFlight(s))[k] + AppliedKeys(s.failures)[k]
      && AppliedKeys(s.failures)[k] <= RaisedKeys(s.failures)[k]
      && (InFlight(s).None? ==>
            Recorded01(s, k) <= OrderedKeys(s.ledger)[k] <= Recorded01(s, k) + RaisedKeys(s.failures)[k])
      && (k in s.results ==> OneKey(InFlight(s))[k] == 0)
  {
    Reachable(n, events);
    var s := Exec(n, events);
    AppliedAreRaised(s.failures);
    if InFlight(s).Some? {
      assert Fits(s.results, s.threads[s.lock.value]);
    }
  }

  /** A lone thread measures and gets as far as posting. */
  function Attempt(measured: Event): seq<Event> {
    [measured, Acquire(0), Lookup(0)]
  }

  lemma AttemptChecks(s: State, measured: Event)
    requires |s.threads| == 1 && s.threads[0].Idle? && s.lock.None?
    requires measured.Measure? && measured.t == 0 && CallFor(measured).Some?
    ensures
      var call := CallFor(measured).value;
      Run(s, Attempt(measured)) == Step(s.(threads := [Checking(call)], lock := Some(0)), Lookup(0))
  {
    RunTwo(s, measured, Acquire(0));
    RunOne(Run(s, [measured, Acquire(0)]), Lookup(0));
    RunConcat(s, [measured, Acquire(0)], [Lookup(0)]);
    assert [measured, Acquire(0)] + [Lookup(0)] == Attempt(measured);
  }

  lemma AttemptPosts(s: State, measured: Event)
    requires |s.threads| == 1 && s.threads[0].Idle? && s.lock.None?
    requires measured.Measure? && measured.t == 0 && CallFor(measured).Some?
    requires CallFor(measured).value.key !in s.results
    ensures
      var call := CallFor(measured).value;
      Run(s, Attempt(measured)) == s.(threads := [Posting(call)], lock := Some(0), invoked := s.invoked + [call])
  {
    AttemptChecks(s, measured);
  }

  /** The attempt's post takes effect and raises: the order is there, the key is not recorded. */
  lemma AttemptRaises(s: State, measured: Event)
    requires |s.threads| == 1 && s.threads[0].Idle? && s.lock.None?
    requires measured.Measure? && measured.t == 0 && CallFor(measured).Some?
    requires CallFor(measured).value.key !in s.results
    ensures
      var s' := Run(s, Attempt(measured) + [PostRaises(0, true)]);
      && |s'.threads| == 1 && s'.threads[0].Idle? && s'.lock.None? && s'.results == s.results
      && s'.ledger == s.ledger + [Order(CallFor(measured).value, false)]
      && s'.invoked == s.invoked + [CallFor(measured).value]
  {
    AttemptPosts(s, measured);
    RunConcat(s, Attempt(measured), [PostRaises(0, true)]);
    RunOne(Run(s, Attempt(measured)), PostRaises(0, true));
  }

  /**
   * An operation is promised to be invoked at most once for a key. That fails: a
   * post that raises after taking effect leaves no record, so the next call with
   * the same key invokes it again and a second order arrives.
   */
  lemma TwoOrdersForOneKey(measured: Event)
    requires measured.Measure? && measured.t == 0 && CallFor(measured).Some?
    ensures
      var once, k := Attempt(measured) + [PostRaises(0, true)], CallFor(measured).value.key;
      && KeysOf(Exec(1, once + once).invoked)[k] == 2
      && OrderedKeys(Exec(1, once + once).ledger)[k] == 2
  {
    var call := CallFor(measured).value;
    var once := Attempt(measured) + [PostRaises(0, true)];
    var s1 := Run(Init(1), once);
    AttemptRaises(Init(1), measured);
    AttemptRaises(s1, measured);
    RunConcat(Init(1), once, once);
    OrderedTwice(Init(1).ledger, Order(call, false));
    KeysOfOneMore([], call);
    KeysOfOneMore([] + [call], call);
  }

  lemma OrderedTwice(ledger: seq<Order>, o: Order)
    ensures OrderedKeys((ledger + [o]) + [o])[o.call.key] == OrderedKeys(ledger)[o.call.key] + 2
  {
    assert ((ledger + [o]) + [o])[..|ledger| + 1] == ledger + [o];
    assert (ledger + [o])[..|ledger|] == ledger;
  }

  lemma RunOne(s: State, e: Event)
    ensures Run(s, [e]) == Step(s, e)
  {
    assert [e][..0] == [];
  }

  lemma RunTwo(s: State, e: Event, f: Event)
    ensures Run(s, [e, f]) == Step(Step(s, e), f)
  {
    assert [e, f][..1] == [e];
    RunOne(s, e);
  }

  /** What the events on an order's way from post to record change. */
  lemma RelatedFields(s: State, e: Event)
    requires !Unrelated(s, e)
    ensures !e.Record? ==> Step(s, e).results == s.results
    ensures e.Record? ==> Step(s, e).ledger == s.ledger && AddsEntry(s, Step(s, e), e.t)
    ensures e.PostSucceeds? ==> Step(s, e).ledger == s.ledger + [Order(s.threads[e.t].call, true)]
    ensures e.PostRaises? && e.applied ==> Step(s, e).ledger == s.ledger + [Order(s.threads[e.t].call, false)]
    ensures e.PostRaises? && !e.applied ==> Step(s, e).ledger == s.ledger
  {
  }

  lemma StepKeepsEntry(s: State, e: Event, k: string)
    requires Inv(s) && k in s.results
    ensures k in Step(s, e).results && Step(s, e).results[k] == s.results[k]
    ensures OrderedKeys(Step(s, e).ledger)[k] == OrderedKeys(s.ledger)[k]
  {
    if Unrelated(s, e) {
      UnrelatedFields(s, e);
    } else {
      HandedIsConsistent(s.history);
      FlightAfter(s, e);
      RelatedFields(s, e);
      KeptAside(s, Step(s, e), s.threads[e.t].call, k);
    }
  }

  /** Changes on behalf of one key leave every other key's entry and orders alone. */
  lemma KeptAside(s: State, s': State, call: Call, k: string)
    requires k in s.results && call.key != k
    requires s'.results == s.results
      || (call.key in s'.results && s'.results == s.results[call.key := s'.results[call.key]])
    requires s'.ledger == s.ledger || s'.ledger == s.ledger + [Order(call, true)]
      || s'.ledger == s.ledger + [Order(call, false)]
    ensures k in s'.results && s'.results[k] == s.results[k]
    ensures OrderedKeys(s'.ledger)[k] == OrderedKeys(s.ledger)[k]
  {
    OtherKeyOrdered(s.ledger, Order(call, true), k);
    OtherKeyOrdered(s.ledger, Order(call, false), k);
  }

  lemma OtherKeyOrdered(ledger: seq<Order>, o: Order, k: string)
    requires o.call.key != k
    ensures OrderedKeys(ledger + [o])[k] == OrderedKeys(ledger)[k]
  {
    assert (ledger + [o])[..|ledger|] == ledger;
  }

  /** Once a key is recorded its entry never changes and no further order for it arrives. */
  lemma {:induction false} RecordedIsFinal(n: nat, events: seq<Event>, more: seq<Event>, k: string)
    requires k in Exec(n, events).results
    ensures
      var s, s' := Exec(n, events), Exec(n, events + more);
      && k in s'.results && s'.results[k] == s.results[k]
      && OrderedKeys(s'.ledger)[k] == OrderedKeys(s.ledger)[k]
  {
    if more == [] {
      assert events + more == events;
    } else {
      var front := more[..|more| - 1];
      FrontOfSum(events, more);
      RecordedIsFinal(n, events, front, k);
      Reachable(n, events + front);
      StepKeepsEntry(Exec(n, events + front), more[|more| - 1], k);
    }
  }

  /**
   * Every interleaving is one of executions run one at a time; CREATED is handed
   * out at most once for a key, and every result, DUPLICATE included, carries the
   * recorded response and time.
   */
  lemma Linearizable(n: nat, events: seq<Event>, k: string)
    ensures
      var s := Exec(n, events);
      && s.results == StoreAfter(s.history) && s.handed == Handed(s.history)
      && CreatedKeys(s.handed)[k] == Recorded01(s, k)
      && forall i | 0 <= i < |s.handed| :: Agrees(s.results, s.handed[i])
  {
    Reachable(n, events);
    HandedIsConsistent(Exec(n, events).history);
  }

  /* ------------------------------------------------------------ provenance */

  /** A measurement in the run led to this call. */
  ghost predicate Measured(events: seq<Event>, call: Call) {
    exists i | 0 <= i < |events| :: events[i].Measure? && CallFor(events[i]) == Some(call)
  }

  /** The measurements' calls, and every call the state mentions. */
  ghost function MeasuredCalls(events: seq<Event>): iset<Call> {
    iset call | Measured(events, call)
  }

  ghost predicate Among(s: State, calls: iset<Call>) {
    && (forall t | 0 <= t < |s.threads| && !s.threads[t].Idle? :: s.threads[t].call in calls)
    && (forall i | 0 <= i < |s.ledger| :: s.ledger[i].call in calls)
    && (forall i | 0 <= i < |s.recorded| :: s.recorded[i] in calls)
    && (forall i | 0 <= i < |s.lost| :: s.lost[i] in calls)
    && (forall i | 0 <= i < |s.audit| && s.audit[i].OrderRaised? :: s.audit[i].call in calls)
  }

  lemma AmongMore(s: State, calls: iset<Call>, more: iset<Call>)
    requires Among(s, calls) && calls <= more
    ensures Among(s, more)
  {
  }

  lemma MeasuredStays(events: seq<Event>, e: Event)
    ensures MeasuredCalls(events) <= MeasuredCalls(events + [e])
    ensures e.Measure? && CallFor(e).Some? ==> CallFor(e).value in MeasuredCalls(events + [e])
  {
    assert (events + [e])[|events|] == e;
    forall call | Measured(events, call)
      ensures Measured(events + [e], call)
    {
      var i :| 0 <= i < |events| && events[i].Measure? && CallFor(events[i]) == Some(call);
      assert (events + [e])[i] == events[i];
    }
  }

  lemma StepKeepsAmong(s: State, e: Event, calls: iset<Call>)
    requires Among(s, calls)
    requires e.Measure? && CallFor(e).Some? ==> CallFor(e).value in calls
    ensures Among(Step(s, e), calls)
  {
    match e {
      case Tick =>
      case CheckStatus(_, _) =>
      case Measure(_, _, _, _, _, _, _) =>
      case Acquire(_) =>
      case Lookup(_) =>
      case PostSucceeds(_, _) =>
      case PostRaises(_, _) =>
      case Record(_) =>
      case Report(_) =>
      case ReportFails(_, _) =>
    }
  }

  lemma {:induction false} RunIsMeasured(n: nat, events: seq<Event>)
    ensures Among(Exec(n, events), MeasuredCalls(events))
  {
    if events != [] {
      var front, last := events[..|events| - 1], events[|events| - 1];
      LastApart(events);
      RunIsMeasured(n, front);
      MeasuredStays(front, last);
      AmongMore(Exec(n, front), MeasuredCalls(front), MeasuredCalls(events));
      StepKeepsAmong(Exec(n, front), last, MeasuredCalls(events));
    }
  }

  /** The readings behind a call allow exactly the quantity it orders. */
  lemma CallIsPolicy(e: Event, call: Call)
    requires e.Measure? && CallFor(e) == Some(call)
    ensures e.onHand.Some? && e.onHand.value >= 0
    ensures call.quantity == Sum(e.rows) - e.onHand.value && call.quantity >= 7
    ensures ValidateStoreId(e.storeId) == Ok(call.position.storeId) && ValidateSku(e.sku) == Ok(call.position.sku)
    ensures call.rows == e.rows && call.date == e.date
    ensures call.position.onHandUnits == e.onHand && call.position.posUnitsSold24h == Sum(e.rows)
    ensures call.position.posTransactionCount == |e.rows|
    ensures call.key == ReplenishmentKey(KeyFields(call.position.storeId, call.position.sku, call.quantity, e.date))
  {
    OrderQuantityIff(call.position, call.quantity);
  }
}
