/** Any sequence of orders and status checks on one service: what is recorded or reported once stays so. */
module ServiceCalls {
  import opened Text
  import opened Idempotency
  import opened AuditLogs
  import opened Policy
  import opened ProtocolTheorems
  import opened ProtocolInvocations
  import opened ServiceSpec
  import opened ServiceMirror
  import opened Service
  import P = Protocol
  import S = StoreLink

  datatype Call = RaiseCall(storeId: string, sku: string, elapsed: nat) | StatusCall(storeId: string, orderId: string)

  datatype Outcome = Raised(r: Result<OrderReport, ServiceError>) | Told(status: Result<S.Body, ServiceError>)

  /** The call reported an order. */
  predicate Ordered(o: Outcome) {
    o.Raised? && o.r.Ok?
  }

  /** The key of a reported order. */
  function KeyIn(o: Outcome): string
    requires Ordered(o)
  {
    o.r.value.call.key
  }

  predicate EntriesKept(before: Results, after: Results) {
    forall k | k in before :: k in after && after[k] == before[k]
  }

  /** The report repeats what is recorded under its key. */
  predicate Repeats(report: OrderReport, results: Results) {
    && report.call.key in results
    && report.result.response == results[report.call.key].response
    && report.result.recordedAt == results[report.call.key].recordedAt
  }

  /** What one call does to the store and the trail. */
  ghost predicate Tells(o: Outcome, before: Results, after: Results, records: seq<P.AuditRecord>,
      later: seq<P.AuditRecord>)
  {
    && EntriesKept(before, after) && records <= later
    && (Ordered(o) ==>
          && later == records + [P.OrderRaised(o.r.value.call, o.r.value.result)]
          && Repeats(o.r.value, after)
          && (o.r.value.result.outcome.Created? <==> KeyIn(o) !in before))
  }

  lemma RaiseTells(t: Trace, results: Results, after: Results, later: seq<S.Request>, answers: nat -> S.HttpReply,
      r: Result<OrderReport, ServiceError>, records: seq<P.AuditRecord>, noted: seq<P.AuditRecord>)
    requires Decided(t.call, results, after, t.sent, later, answers, t.now, t.answer, t.executed, r)
    requires Reported(records, noted, r)
    requires if t.measured then t.reading.Checked()
        && Recorded(t.call, t.reading.Position(), records, noted, t.executed, t.append, r) else noted == records
    ensures Tells(Raised(r), results, after, records, noted)
  {
  }

  lemma StatusTells(storeId: string, orderId: string, results: Results, records: seq<P.AuditRecord>,
      noted: seq<P.AuditRecord>, append: Append, r: Result<S.Body, ServiceError>)
    requires noted == records || StatusNoted(storeId, orderId, records, noted, append, r)
    ensures Tells(Told(r), results, results, records, noted)
  {
  }

  method RunOne(service: BuyerService, call: Call) returns (o: Outcome)
    requires service.Valid()
    modifies service, service.store, service.audit, service.client`sent, service.client.secrets
    modifies service.client.secrets.mount, service.client.secrets.registry
    ensures service.Valid() && old(service.events) <= service.events
    ensures Tells(o, old(service.store.results), service.store.results, old(service.audit.records),
                  service.audit.records)
  {
    ghost var results, records := service.store.results, service.audit.records;
    match call {
      case RaiseCall(storeId, sku, elapsed) =>
        var r, t := service.RaiseReplenishmentOrder(storeId, sku, elapsed);
        RaiseTells(t, results, service.store.results, service.client.sent, service.client.answers, r, records,
                   service.audit.records);
        o := Raised(r);
      case StatusCall(storeId, orderId) =>
        var r, k, append := service.GetReplenishmentOrderStatus(storeId, orderId);
        StatusTells(if ValidateStoreId(storeId).Ok? then ValidateStoreId(storeId).value else "", orderId, results,
                    records, service.audit.records, append, r);
        o := Told(r);
    }
  }

  /** A key's first report says CREATED, if any does; each later one repeats its answer and time. */
  predicate OncePerKey(outcomes: seq<Outcome>) {
    forall i, j | 0 <= i < j < |outcomes| && Ordered(outcomes[i]) && Ordered(outcomes[j])
                  && KeyIn(outcomes[i]) == KeyIn(outcomes[j]) ::
      && outcomes[j].r.value.result.outcome.Duplicate?
      && outcomes[j].r.value.result.response == outcomes[i].r.value.result.response
      && outcomes[j].r.value.result.recordedAt == outcomes[i].r.value.result.recordedAt
  }

  /** Every report so far repeats the store and is in the trail. */
  predicate ReportsHold(outcomes: seq<Outcome>, results: Results, records: seq<P.AuditRecord>) {
    forall i | 0 <= i < |outcomes| && Ordered(outcomes[i]) ::
      && Repeats(outcomes[i].r.value, results)
      && P.OrderRaised(outcomes[i].r.value.call, outcomes[i].r.value.result) in records
  }

  lemma OneMoreOutcome(outcomes: seq<Outcome>, o: Outcome, before: Results, after: Results,
      records: seq<P.AuditRecord>, later: seq<P.AuditRecord>)
    requires OncePerKey(outcomes) && ReportsHold(outcomes, before, records) && Tells(o, before, after, records, later)
    ensures OncePerKey(outcomes + [o]) && ReportsHold(outcomes + [o], after, later)
  {
  }

  /** From one run to its continuation nothing more was posted, ordered or raised for the keys recorded by then. */
  ghost predicate Final(events: seq<P.Event>, later: seq<P.Event>, results: Results) {
    forall k | k in results :: FinalFor(Exec(1, events), Exec(1, later), k)
  }

  ghost predicate FinalFor(s: P.State, s': P.State, k: string) {
    && k in s.results && k in s'.results && s'.results[k] == s.results[k]
    && P.OrderedKeys(s'.ledger)[k] == P.OrderedKeys(s.ledger)[k]
    && P.KeysOf(s'.invoked)[k] == P.KeysOf(s.invoked)[k]
    && P.RaisedKeys(s'.failures)[k] == P.RaisedKeys(s.failures)[k]
  }

  lemma RecordedIsFinalLater(events: seq<P.Event>, later: seq<P.Event>, k: string)
    requires events <= later && k in Exec(1, events).results
    ensures FinalFor(Exec(1, events), Exec(1, later), k)
  {
    var more := later[|events|..];
    assert later == events + more;
    RecordedIsFinal(1, events, more, k);
    RecordedEndsPosting(1, events, more, k);
  }

  lemma MirroredIsFinal(events: seq<P.Event>, later: seq<P.Event>, results: Results, records: seq<P.AuditRecord>,
      clock: nat, taken: seq<Placed>)
    requires Mirrors(events, P.Idle, results, records, clock, taken) && events <= later
    ensures Final(events, later, results)
  {
    assert Matches(Exec(1, events), P.Idle, results, records, clock, taken);
    forall k | k in results
      ensures FinalFor(Exec(1, events), Exec(1, later), k)
    {
      RecordedIsFinalLater(events, later, k);
    }
  }

  /**
   * Over any sequence of calls, whatever the files, the upstream and the appends
   * do: the trail is only ever appended to and keeps every report returned; no
   * entry of the store changes; for a key recorded before, nothing is posted or
   * ordered again; and of the reports for one key only the first can say CREATED,
   * all of them giving the same answer.
   */
  method RunCalls(service: BuyerService, calls: seq<Call>) returns (outcomes: seq<Outcome>)
    requires service.Valid()
    modifies service, service.store, service.audit, service.client`sent, service.client.secrets
    modifies service.client.secrets.mount, service.client.secrets.registry
    ensures service.Valid() && |outcomes| == |calls|
    ensures old(service.events) <= service.events && old(service.audit.records) <= service.audit.records
    ensures EntriesKept(old(service.store.results), service.store.results)
    ensures Final(old(service.events), service.events, old(service.store.results))
    ensures OncePerKey(outcomes) && ReportsHold(outcomes, service.store.results, service.audit.records)
  {
    outcomes := [];
    ghost var taken := Taken(service.client.sent, service.client.answers, service.effects);
    ghost var start, kept, trail, clock := service.events, service.store.results, service.audit.records, service.clock;
    for n := 0 to |calls|
      invariant service.Valid() && |outcomes| == n
      invariant start <= service.events && trail <= service.audit.records
      invariant EntriesKept(kept, service.store.results)
      invariant OncePerKey(outcomes) && ReportsHold(outcomes, service.store.results, service.audit.records)
    {
      ghost var before, records := service.store.results, service.audit.records;
      var o := RunOne(service, calls[n]);
      OneMoreOutcome(outcomes, o, before, service.store.results, records, service.audit.records);
      outcomes := outcomes + [o];
    }
    MirroredIsFinal(start, service.events, kept, trail, clock, taken);
  }
}
