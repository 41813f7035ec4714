/** The service's fields, matched by a run of the write protocol with one thread. */
module ServiceMirror {
  import opened Text
  import opened Idempotency
  import opened IdempotencyStores
  import opened AuditLogs
  import opened Protocol
  import opened ProtocolTheorems
  import opened ServiceRuns
  import opened ServiceSpec
  import S = StoreLink

  /** The run of these events ends in this phase with these results, records, time and orders. */
  ghost predicate Mirrors(events: seq<Event>, phase: Phase, results: Results, records: seq<AuditRecord>, clock: nat,
      taken: seq<Placed>)
  {
    forall s | s == Exec(1, events) :: Matches(s, phase, results, records, clock, taken)
  }

  predicate Matches(s: State, phase: Phase, results: Results, records: seq<AuditRecord>, clock: nat,
      taken: seq<Placed>)
  {
    && Rests(s, phase) && s.results == results && s.audit == records && s.clock == clock && PlacedBy(s.ledger) == taken
  }

  lemma NothingYet()
    ensures Mirrors([], Idle, map[], [], 0, [])
  {
    assert Init(1).threads == [Idle];
  }

  lemma MirrorsLater(events: seq<Event>, results: Results, records: seq<AuditRecord>, clock: nat, taken: seq<Placed>,
      elapsed: nat)
    requires Mirrors(events, Idle, results, records, clock, taken)
    ensures Mirrors(events + seq(elapsed, i => Tick), Idle, results, records, clock + elapsed, taken)
  {
    assert Matches(Exec(1, events), Idle, results, records, clock, taken);
    TicksRun(Exec(1, events), elapsed);
    RunConcat(Init(1), events, seq(elapsed, i => Tick));
  }

  /** A record that is no order report may be appended. */
  lemma MirrorsStatus(events: seq<Event>, results: Results, records: seq<AuditRecord>, clock: nat, taken: seq<Placed>,
      storeId: string, orderId: string)
    requires Mirrors(events, Idle, results, records, clock, taken)
    ensures Mirrors(events + [CheckStatus(storeId, orderId)], Idle, results,
                    records + [StatusChecked(storeId, orderId)], clock, taken)
  {
    assert Matches(Exec(1, events), Idle, results, records, clock, taken);
    RunOne(Exec(1, events), CheckStatus(storeId, orderId));
    RunConcat(Init(1), events, [CheckStatus(storeId, orderId)]);
  }

  lemma MirrorsRefusal(events: seq<Event>, results: Results, records: seq<AuditRecord>, clock: nat, taken: seq<Placed>,
      measured: Event)
    requires Mirrors(events, Idle, results, records, clock, taken)
    requires measured.Measure? && measured.t == 0 && CallFor(measured).None?
    ensures Mirrors(events + [measured], Idle, results, records + RefusalFor(measured), clock, taken)
  {
    assert Matches(Exec(1, events), Idle, results, records, clock, taken);
    RunOne(Exec(1, events), measured);
    RunConcat(Init(1), events, [measured]);
  }

  lemma {:induction false} PlacedMore(ledger: seq<Order>, more: seq<Order>)
    ensures PlacedBy(ledger + more) == PlacedBy(ledger) + PlacedBy(more)
  {
    if more == [] {
      assert ledger + more == ledger;
    } else {
      var front, last := more[..|more| - 1], more[|more| - 1];
      PlacedMore(ledger, front);
      LastApart(more);
      assert ledger + more == (ledger + front) + [last];
      PlacedOneMore(ledger + front, last);
      PlacedOneMore(front, last);
    }
  }

  lemma MirrorsMeasured(events: seq<Event>, results: Results, records: seq<AuditRecord>, clock: nat,
      taken: seq<Placed>, measured: Event)
    requires Mirrors(events, Idle, results, records, clock, taken)
    requires measured.Measure? && measured.t == 0 && CallFor(measured).Some?
    ensures Mirrors(events + [measured], Waiting(CallFor(measured).value), results, records, clock, taken)
  {
    assert Matches(Exec(1, events), Idle, results, records, clock, taken);
    MeasureRun(Exec(1, events), measured);
    RunConcat(Init(1), events, [measured]);
  }

  lemma MirrorsCall(events: seq<Event>, results: Results, records: seq<AuditRecord>, clock: nat, taken: seq<Placed>,
      call: Call, reply: Reply, applied: bool, written: bool, raised: bool)
    requires Mirrors(events, Waiting(call), results, records, clock, taken) && (!raised ==> written)
    ensures
      var (after, executed) := ExecuteLocked(results, call.key, reply, clock);
      Mirrors(events + CallEvents(call.key in results, reply, applied, written, raised), Idle, after,
              records + (if executed.Returned? && written then [OrderRaised(call, executed.result)] else []), clock,
              taken + (if call.key in results then [] else PlacedBy(Ordered(call, reply, applied))))
  {
    var s := Exec(1, events);
    assert Matches(s, Waiting(call), results, records, clock, taken);
    CallRun(s, call, reply, applied, written, raised);
    RunConcat(Init(1), events, CallEvents(call.key in results, reply, applied, written, raised));
    PlacedMore(s.ledger, if call.key in results then [] else Ordered(call, reply, applied));
    assert taken + [] == taken;
  }

  lemma PlacedOne(o: Order)
    ensures PlacedBy([o]) == [Placed(o.call.position.storeId, o.call.position.sku, o.call.quantity)]
  {
    PlacedOneMore([], o);
    assert [] + [o] == [o];
  }

  /** The effect of the one post: an accepted post is an order, any other may be. */
  function Applied(before: seq<S.Request>, after: seq<S.Request>, answers: nat -> S.HttpReply, effects: nat -> bool):
      bool
  {
    |after| > |before| && TookEffect(answers, effects, |before|)
  }

  lemma PostMatches(before: seq<S.Request>, after: seq<S.Request>, answers: nat -> S.HttpReply, effects: nat -> bool,
      call: Call, answer: Result<S.Body, S.ClientError>)
    requires S.PostedOnce(before, after, call.position.storeId, call.position.sku, call.quantity, answers, answer)
    ensures Taken(after, answers, effects)
      == Taken(before, answers, effects)
         + PlacedBy(Ordered(call, ReplyOf(answer), Applied(before, after, answers, effects)))
  {
    if after == before {
      assert Taken(before, answers, effects) + [] == Taken(before, answers, effects);
    } else {
      PostTakes(before, after, answers, effects);
      PlacedOne(Order(call, true));
      PlacedOne(Order(call, false));
    }
  }

  /** The events of an executed call: its answer decides what followed the lookup, the append what followed that. */
  function PlacedEvents(known: bool, answer: Result<S.Body, S.ClientError>, applied: bool,
      append: Append): seq<Event>
  {
    CallEvents(known, ReplyOf(answer), applied, !append.LostAndRaised?, !append.Kept?)
  }

  predicate ExecutedAs(results: Results, after: Results, key: string, answer: Result<S.Body, S.ClientError>, now: nat,
      executed: Result<OperationResult, ExecuteError>)
  {
    (after, ExecutedOf(executed)) == Execute(results, key, ReplyOf(answer), now)
  }

  /** The trail after an executed call. */
  function Trail(records: seq<AuditRecord>, call: Call, executed: Result<OperationResult, ExecuteError>,
      append: Append): seq<AuditRecord>
  {
    if executed.Ok? && !append.LostAndRaised? then records + [OrderRaised(call, executed.value)] else records
  }

  /** The trail after a refusal or a status check: one record more, unless its append failed before the line. */
  function Noted(records: seq<AuditRecord>, record: AuditRecord, append: Append): seq<AuditRecord> {
    if append.LostAndRaised? then records else records + [record]
  }

  /** What executing a call did: the store as its specification says, and a post only for a key without a result. */
  ghost predicate Done(results: Results, after: Results, sent: seq<S.Request>, later: seq<S.Request>,
      answers: nat -> S.HttpReply, clock: nat, call: Call, answer: Result<S.Body, S.ClientError>,
      executed: Result<OperationResult, ExecuteError>)
  {
    && ExecutedAs(results, after, call.key, answer, clock, executed)
    && if call.key in results then later == sent
       else S.PostedOnce(sent, later, call.position.storeId, call.position.sku, call.quantity, answers, answer)
  }

  /** A call that reaches the store is matched by the protocol, whatever the upstream and the trail do. */
  lemma MirrorsPlaced(events: seq<Event>, results: Results, after: Results, records: seq<AuditRecord>, clock: nat,
      sent: seq<S.Request>, later: seq<S.Request>, answers: nat -> S.HttpReply, effects: nat -> bool,
      call: Call, answer: Result<S.Body, S.ClientError>, executed: Result<OperationResult, ExecuteError>,
      append: Append)
    requires Mirrors(events, Waiting(call), results, records, clock, Taken(sent, answers, effects))
    requires Strip(call.key) != "" && Done(results, after, sent, later, answers, clock, call, answer, executed)
    ensures Mirrors(events + PlacedEvents(call.key in results, answer, Applied(sent, later, answers, effects), append),
                    Idle, after, Trail(records, call, executed, append), clock, Taken(later, answers, effects))
  {
    var applied := Applied(sent, later, answers, effects);
    MirrorsCall(events, results, records, clock, Taken(sent, answers, effects), call, ReplyOf(answer), applied,
                !append.LostAndRaised?, !append.Kept?);
    if call.key !in results {
      PostMatches(sent, later, answers, effects, call, answer);
    }
    assert records + [] == records && Taken(sent, answers, effects) + [] == Taken(sent, answers, effects);
  }
}
