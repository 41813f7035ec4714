/**
 * The replenishment write protocol as a state machine: any number of threads
 * measure, take the idempotency store's lock, look their key up, post to an
 * upstream that is not idempotent, record, release and report. The environment
 * chooses the readings, the clock, how each post ends and which audit appends
 * fail; a run is any sequence of events.
 */
module Protocol {
  import opened Text
  import opened Policy
  import opened OrderKey
  import opened Idempotency

  /** One call that is to place an order: its readings and what came of them. */
  datatype Call = Call(position: StockPosition, rows: seq<int>, date: string, quantity: int, key: string)

  datatype Phase =
    | Idle
    | Waiting(call: Call)                             // about to call `execute`
    | Checking(call: Call)                            // holds the lock, before the lookup
    | Posting(call: Call)                             // the key was not there; the post is under way
    | Answered(call: Call, response: Response)        // the post succeeded, nothing recorded yet
    | Reporting(call: Call, result: OperationResult)  // the lock is released, no audit record yet

  /** An order at the upstream; `confirmed` if the post that caused it succeeded. */
  datatype Order = Order(call: Call, confirmed: bool)

  /** An invocation of the post that raised, and whether it had an effect. */
  datatype Failure = Failure(call: Call, applied: bool)

  datatype AuditRecord =
    | StatusChecked(storeId: string, orderId: string)
    | OrderRefused(position: StockPosition)
    | OrderRaised(call: Call, result: OperationResult)

  /**
   * `invoked`, `recorded`, `failures`, `handed`, `lost` and `history` are
   * histories: the calls whose post was invoked, the calls recorded, the posts
   * that raised, the results handed to callers, the counting reports whose append
   * failed, and the completed executions.
   */
  datatype State = State(
    threads: seq<Phase>, lock: Option<nat>, results: Results, clock: nat, ledger: seq<Order>, audit: seq<AuditRecord>,
    invoked: seq<Call>, recorded: seq<Call>, failures: seq<Failure>, handed: seq<OperationResult>, lost: seq<Call>,
    history: seq<Execution>)
  {
    predicate At(t: nat) {
      t < |threads|
    }

    function To(t: nat, phase: Phase): State
      requires At(t)
    {
      this.(threads := threads[t := phase])
    }
  }

  datatype Event =
    | Measure(t: nat, storeId: string, sku: string, onHand: Option<int>, rows: seq<int>, date: string, kept: bool)
    | Acquire(t: nat)
    | Lookup(t: nat)
    | PostSucceeds(t: nat, response: Response)
    | PostRaises(t: nat, applied: bool)
    | Record(t: nat)
    | Report(t: nat)
    | ReportFails(t: nat, written: bool)
    | CheckStatus(storeId: string, orderId: string)
    | Tick

  function Init(n: nat): State {
    State(seq(n, i => Idle), None, map[], 0, [], [], [], [], [], [], [], [])
  }

  function Sum(rows: seq<int>): int {
    if rows == [] then 0 else Sum(rows[..|rows| - 1]) + rows[|rows| - 1]
  }

  /** The units of two sets of till rows are the units of both together, and those of one row are its own. */
  lemma {:induction false} SumOfBoth(a: seq<int>, b: seq<int>)
    ensures Sum(a + b) == Sum(a) + Sum(b) && Sum([]) == 0
    ensures |a| == 1 ==> Sum(a) == a[0]
  {
    if b == [] {
      assert a + b == a;
      assert |a| == 1 ==> a[..0] == [];
    } else {
      FrontOfSum(a, b);
      SumOfBoth(a, b[..|b| - 1]);
    }
  }

  /** The call a measurement leads to, if the identifiers and the policy allow one. */
  function CallFor(e: Event): Option<Call>
    requires e.Measure?
  {
    var store, sku := ValidateStoreId(e.storeId), ValidateSku(e.sku);
    if store.Err? || sku.Err? then None
    else
      var position := StockPosition(store.value, sku.value, e.onHand, Sum(e.rows), |e.rows|);
      var quantity := OrderQuantity(position);
      if quantity.None? then None
      else
        var fields := KeyFields(store.value, sku.value, quantity.value, e.date);
        Some(Call(position, e.rows, e.date, quantity.value, ReplenishmentKey(fields)))
  }

  /** The audit record of a refusal, if it was kept; a measurement that fails outright leaves none. */
  function RefusalFor(e: Event): seq<AuditRecord>
    requires e.Measure?
  {
    var store, sku := ValidateStoreId(e.storeId), ValidateSku(e.sku);
    if store.Err? || sku.Err? then []
    else
      var position := StockPosition(store.value, sku.value, e.onHand, Sum(e.rows), |e.rows|);
      if Assess(position).Ok? && e.kept then [OrderRefused(position)] else []
  }

  /** A refusal is recorded, if at all, exactly for checked identifiers and stock that is unknown or not negative. */
  lemma RefusalIff(e: Event)
    requires e.Measure?
    ensures RefusalFor(e) != [] <==>
            e.kept && IsId(Strip(e.storeId), 10) && IsId(Strip(e.sku), 20) && (e.onHand.Some? ==> e.onHand.value >= 0)
    ensures RefusalFor(e) != [] ==>
      && |RefusalFor(e)| == 1 && RefusalFor(e)[0].OrderRefused?
      && RefusalFor(e)[0].position.onHandUnits == e.onHand
      && RefusalFor(e)[0].position.posUnitsSold24h == Sum(e.rows)
  {
    ValidateIdIff(e.storeId, 10);
    ValidateIdIff(e.sku, 20);
  }

  /** One event; an event that is not possible in the state changes nothing. */
  function Step(s: State, e: Event): State {
    match e
    case Tick => s.(clock := s.clock + 1)
    case CheckStatus(storeId, orderId) => s.(audit := s.audit + [StatusChecked(storeId, orderId)])
    case Measure(t, _, _, _, _, _, _) =>
      if s.At(t) && s.threads[t].Idle? then
        match CallFor(e)
        case Some(call) => s.To(t, Waiting(call))
        case None => s.(audit := s.audit + RefusalFor(e))
      else s
    case Acquire(t) =>
      if s.At(t) && s.threads[t].Waiting? then
        if s.lock.None? then s.To(t, Checking(s.threads[t].call)).(lock := Some(t))
        else s
      else s
    case Lookup(t) => if s.At(t) && s.threads[t].Checking? then LookedUp(s, t) else s
    case PostSucceeds(t, response) =>
      if s.At(t) && s.threads[t].Posting? then
        var call := s.threads[t].call;
        s.To(t, Answered(call, response)).(ledger := s.ledger + [Order(call, true)])
      else s
    case PostRaises(t, applied) => if s.At(t) && s.threads[t].Posting? then Raised(s, t, applied) else s
    case Record(t) => if s.At(t) && s.threads[t].Answered? then Recorded(s, t) else s
    case Report(t) =>
      if s.At(t) && s.threads[t].Reporting? then
        s.To(t, Idle).(audit := s.audit + [OrderRaised(s.threads[t].call, s.threads[t].result)])
      else s
    case ReportFails(t, written) =>
      if s.At(t) && s.threads[t].Reporting? then
        var Reporting(call, result) := s.threads[t];
        if written then s.To(t, Idle).(audit := s.audit + [OrderRaised(call, result)])
        else s.To(t, Idle).(lost := s.lost + (if result.CountsTowardsTotals() then [call] else []))
      else s
  }

  function LookedUp(s: State, t: nat): State
    requires s.At(t) && s.threads[t].Checking?
  {
    var call := s.threads[t].call;
    if call.key in s.results then
      var entry := s.results[call.key];
      var result := OperationResult(Duplicate, call.key, entry.response, entry.recordedAt);
      s.To(t, Reporting(call, result)).(
        lock := None, handed := s.handed + [result],
        history := s.history + [Execution(call.key, Raises, s.clock)])
    else s.To(t, Posting(call)).(invoked := s.invoked + [call])
  }

  function Raised(s: State, t: nat, applied: bool): State
    requires s.At(t) && s.threads[t].Posting?
  {
    var call := s.threads[t].call;
    s.To(t, Idle).(
      lock := None, ledger := s.ledger + (if applied then [Order(call, false)] else []),
      failures := s.failures + [Failure(call, applied)],
      history := s.history + [Execution(call.key, Raises, s.clock)])
  }

  function Recorded(s: State, t: nat): State
    requires s.At(t) && s.threads[t].Answered?
  {
    var Answered(call, response) := s.threads[t];
    var result := OperationResult(Created, call.key, response, s.clock);
    s.To(t, Reporting(call, result)).(
      lock := None, results := s.results[call.key := result],
      recorded := s.recorded + [call], handed := s.handed + [result],
      history := s.history + [Execution(call.key, Answers(response), s.clock)])
  }

  function Run(s: State, events: seq<Event>): State {
    if events == [] then s else Step(Run(s, events[..|events| - 1]), events[|events| - 1])
  }

  /* -------------------------------------------------------------- tallies */

  /** The keys of all orders at the upstream, once for each order. */
  function OrderedKeys(ledger: seq<Order>): multiset<string> {
    if ledger == [] then multiset{}
    else OrderedKeys(ledger[..|ledger| - 1]) + multiset{ledger[|ledger| - 1].call.key}
  }

  /** The keys of some calls, once for each call. */
  function KeysOf(calls: seq<Call>): multiset<string> {
    if calls == [] then multiset{} else KeysOf(calls[..|calls| - 1]) + multiset{calls[|calls| - 1].key}
  }

  /** The calls whose order the upstream confirmed. */
  function Confirmed(ledger: seq<Order>): multiset<Call> {
    if ledger == [] then multiset{}
    else
      var last := ledger[|ledger| - 1];
      Confirmed(ledger[..|ledger| - 1]) + (if last.confirmed then multiset{last.call} else multiset{})
  }

  /** The keys of the posts that raised after taking effect. */
  function AppliedKeys(failures: seq<Failure>): multiset<string> {
    if failures == [] then multiset{}
    else
      var last := failures[|failures| - 1];
      AppliedKeys(failures[..|failures| - 1]) + (if last.applied then multiset{last.call.key} else multiset{})
  }

  /** The keys of all posts that raised. */
  function RaisedKeys(failures: seq<Failure>): multiset<string> {
    if failures == [] then multiset{}
    else RaisedKeys(failures[..|failures| - 1]) + multiset{failures[|failures| - 1].call.key}
  }

  /** The calls reported as counting towards the daily total. */
  function Counted(audit: seq<AuditRecord>): multiset<Call> {
    if audit == [] then multiset{}
    else
      var last := audit[|audit| - 1];
      Counted(audit[..|audit| - 1]) + (if Counts(last) then multiset{last.call} else multiset{})
  }

  predicate Counts(r: AuditRecord) {
    r.OrderRaised? && r.result.CountsTowardsTotals()
  }

  /** The counting results not reported yet. */
  function Pending(threads: seq<Phase>): multiset<Call> {
    PendingTo(threads, |threads|)
  }

  function PendingTo(threads: seq<Phase>, n: nat): multiset<Call>
    requires n <= |threads|
  {
    if n == 0 then multiset{} else PendingTo(threads, n - 1) + PendingIn(threads[n - 1])
  }

  function PendingIn(phase: Phase): multiset<Call> {
    if phase.Reporting? && phase.result.CountsTowardsTotals() then multiset{phase.call} else multiset{}
  }

  /** The call whose post has succeeded and is not recorded yet; at most one. */
  function InFlight(s: State): Option<Call> {
    if s.lock.Some? && s.At(s.lock.value) && s.threads[s.lock.value].Answered?
    then Some(s.threads[s.lock.value].call) else None
  }

  /** The call whose post is invoked and not yet recorded or failed; at most one. */
  function Invoking(s: State): Option<Call> {
    if s.lock.Some? && s.At(s.lock.value) && IsInvoking(s.threads[s.lock.value])
    then Some(s.threads[s.lock.value].call) else None
  }

  predicate IsInvoking(phase: Phase) {
    phase.Posting? || phase.Answered?
  }

  function One(call: Option<Call>): multiset<Call> {
    if call.Some? then multiset{call.value} else multiset{}
  }

  function OneKey(call: Option<Call>): multiset<string> {
    if call.Some? then multiset{call.value.key} else multiset{}
  }

  lemma {:induction false} PendingBefore(threads: seq<Phase>, after: seq<Phase>, n: nat)
    requires n <= |threads| == |after| && forall i | 0 <= i < n :: after[i] == threads[i]
    ensures PendingTo(after, n) == PendingTo(threads, n)
  {
    if n > 0 {
      PendingBefore(threads, after, n - 1);
    }
  }

  lemma {:induction false} PendingPast(threads: seq<Phase>, after: seq<Phase>, t: nat, n: nat)
    requires t < n <= |threads| == |after| && forall i | 0 <= i < n && i != t :: after[i] == threads[i]
    ensures PendingTo(after, n) + PendingIn(threads[t]) == PendingTo(threads, n) + PendingIn(after[t])
  {
    var m := n - 1;
    if t == m {
      PendingBefore(threads, after, t);
      Exchange(PendingTo(threads, t), PendingIn(threads[t]), PendingIn(after[t]));
    } else {
      PendingPast(threads, after, t, m);
      AddToBoth(PendingTo(after, m), PendingIn(threads[t]), PendingTo(threads, m), PendingIn(after[t]),
                PendingIn(threads[m]));
    }
  }

  lemma Exchange(a: multiset<Call>, x: multiset<Call>, y: multiset<Call>)
    ensures (a + y) + x == (a + x) + y
  {
  }

  lemma AddToBoth(a: multiset<Call>, x: multiset<Call>, b: multiset<Call>, y: multiset<Call>, c: multiset<Call>)
    requires a + x == b + y
    ensures (a + c) + x == (b + c) + y
  {
    assert (a + c) + x == (a + x) + c;
    assert (b + c) + y == (b + y) + c;
  }

  /** Replacing one thread's phase changes what is pending by that thread's share. */
  lemma PendingOfUpdate(threads: seq<Phase>, t: nat, phase: Phase)
    requires t < |threads|
    ensures Pending(threads[t := phase]) + PendingIn(threads[t]) == Pending(threads) + PendingIn(phase)
  {
    PendingPast(threads, threads[t := phase], t, |threads|);
  }

  /* ------------------------------------------------------------ invariant */

  predicate Critical(phase: Phase) {
    phase.Checking? || phase.Posting? || phase.Answered?
  }

  /** Exactly the lock's holder is between lookup and release. */
  predicate MutualExclusion(s: State) {
    && (s.lock.Some? ==> s.At(s.lock.value))
    && forall t: nat | t < |s.threads| :: Critical(s.threads[t]) <==> s.lock == Some(t)
  }

  /** A call past its lookup has no record yet; a reported result agrees with its record. */
  predicate Fits(results: Results, phase: Phase) {
    match phase
    case Posting(call) => call.key !in results
    case Answered(call, _) => call.key !in results
    case Reporting(call, result) => result.requestKey == call.key && Agrees(results, result)
    case _ => true
  }

  predicate PhasesFit(s: State) {
    forall t: nat | t < |s.threads| :: Fits(s.results, s.threads[t])
  }

  /** Every order has a recorded key, an unrecorded confirmation, or a post that raised. */
  predicate OrdersBalance(ledger: seq<Order>, keys: multiset<string>, failures: seq<Failure>,
      recorded: multiset<Call>, inFlight: Option<Call>)
  {
    && OrderedKeys(ledger) == keys + OneKey(inFlight) + AppliedKeys(failures)
    && Confirmed(ledger) == recorded + One(inFlight)
  }

  predicate OrdersAccounted(s: State) {
    OrdersBalance(s.ledger, multiset(s.results.Keys), s.failures, multiset(s.recorded), InFlight(s))
  }

  /** Every recorded call is reported, about to be, or lost. */
  predicate ReportsBalance(audit: seq<AuditRecord>, pending: multiset<Call>, lost: multiset<Call>,
      recorded: multiset<Call>)
  {
    Counted(audit) + pending + lost == recorded
  }

  predicate ReportsAccounted(s: State) {
    ReportsBalance(s.audit, Pending(s.threads), multiset(s.lost), multiset(s.recorded))
  }

  /** The recorded calls carry the recorded keys, each once. */
  predicate RecordedMatches(s: State) {
    KeysOf(s.recorded) == multiset(s.results.Keys)
  }

  /** The store and what callers got are those of the executions run one at a time. */
  predicate Linear(s: State) {
    s.results == StoreAfter(s.history) && s.handed == Handed(s.history)
  }

  ghost predicate Inv(s: State) {
    && MutualExclusion(s)
    && PhasesFit(s)
    && OrdersAccounted(s)
    && ReportsAccounted(s)
    && RecordedMatches(s)
    && Linear(s)
  }
}
