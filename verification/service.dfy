/**
 * `BuyerService`: measure, apply the policy, place the order at most once, report.
 * Every call is matched, event by event, by a run of the write protocol, so all
 * that holds of the protocol's runs holds of the objects here.
 */
module Service {
  import opened Text
  import opened Policy
  import opened OrderKey
  import opened Idempotency
  import opened IdempotencyStores
  import opened AuditLogs
  import opened ServiceSpec
  import opened ServiceMirror
  import opened Credentials
  import P = Protocol
  import S = StoreLink

  datatype ServiceError =
    | Rejected(policy: PolicyError)
    | Client(client: S.ClientError)
    | NotRanged
    | OutOfPolicy
    | BlankKey
    | AuditFailed

  /** The error says that no key is configured for the store. */
  predicate KeyMissing(e: ServiceError) {
    e.Client? && e.client.MissingCredential?
  }

  /** A value is held for the key of the store the caller names. */
  predicate HoldsStore(storeId: string, held: set<string>) {
    ValidateStoreId(storeId).Ok? && HoldsKey(ValidateStoreId(storeId).value, held)
  }

  /** Checked identifiers, the figures read for them, and the store's record. */
  datatype Reading = Reading(storeId: string, sku: string, stock: Figures, sales: Figures, store: S.Body)
  {
    function Position(): StockPosition
      requires stock.Stock? && sales.Units?
    {
      StockPosition(storeId, sku, stock.onHand, P.Sum(sales.units), |sales.units|)
    }

    /** The identifiers are bare digits and the policy can judge the figures. */
    predicate Checked() {
      IsId(storeId, 10) && IsId(sku, 20) && stock.Stock? && sales.Units? && Assess(Position()).Ok?
    }
  }

  datatype OrderReport = OrderReport(call: P.Call, result: OperationResult)

  class BuyerService {
    const client: S.StoreLinkClient
    const store: IdempotencyStore
    const audit: AuditLog
    /** The calendar date at a store, from its record and the time. */
    const calendar: (S.Body, nat) -> string
    /** Whether a post that was not accepted took effect all the same. */
    ghost const effects: nat -> bool
    var clock: nat
    ghost var events: seq<P.Event>

    ghost predicate Valid()
      reads this, client, client.secrets, client.secrets.mount, client.secrets.registry, store, audit
    {
      && client.Valid()
      && Mirrors(events, P.Idle, store.results, audit.records, clock, Taken(client.sent, client.answers, effects))
    }

    constructor (client: S.StoreLinkClient, appends: nat -> Append, calendar: (S.Body, nat) -> string,
        ghost effects: nat -> bool)
      requires client.Valid() && client.sent == []
      ensures Valid() && fresh(store) && fresh(audit)
      ensures this.client == client && store.results == map[] && audit.records == []
    {
      this.client, this.calendar, this.effects := client, calendar, effects;
      store := new IdempotencyStore();
      audit := new AuditLog(appends);
      clock, events := 0, [];
      new;
      NothingYet();
    }

    /** `_ordering_date`: the trading date an order belongs to. */
    function OrderingDate(store: S.Body, now: nat): string {
      calendar(store, now)
    }

    /** The last of the requests sent, at most two, was answered with the result. */
    method ReadOne(storeId: string, target: S.Target) returns (r: Result<S.Body, ServiceError>, ghost k: nat)
      requires client.Valid()
      modifies client`sent, client.secrets, client.secrets.mount, client.secrets.registry
      ensures old(client.secrets.values.Keys) <= client.secrets.values.Keys
      ensures r.Err? && HoldsKey(storeId, old(client.secrets.values.Keys)) ==> !KeyMissing(r.error)
      ensures client.Valid() && OnlyReads(old(client.sent), client.sent)
      ensures r.Err? ==> r.error.Client?
      ensures r.Ok? ==> LastRead(old(client.sent), client.sent, storeId, target, k) && Gives(client.answers, k, r.value)
    {
      var body, compared := client.Read(storeId, target);
      k := if body.Ok? then |client.sent| - 1 else 0;
      r := match body case Ok(b) => Ok(b) case Err(e) => Err(Client(e));
    }

    /** The stock of one unit; an answer without a figure is judged later, when the position is put together. */
    method ReadInventory(storeId: string, sku: string) returns (r: Figures, ok: bool, ghost i: nat)
      requires client.Valid()
      modifies client`sent, client.secrets, client.secrets.mount, client.secrets.registry
      ensures old(client.secrets.values.Keys) <= client.secrets.values.Keys
      ensures r.NoFigures? && HoldsKey(storeId, old(client.secrets.values.Keys)) ==> !r.error.MissingCredential?
      ensures client.Valid() && OnlyReads(old(client.sent), client.sent)
      ensures ok ==> LastRead(old(client.sent), client.sent, storeId, S.Inventory(sku), i)
      ensures ok && r.Stock? ==> StockShown(S.ReplyTo(client.answers, i), r)
      ensures r.Stock? || r.NoFigures?
      ensures !ok ==> r.NoFigures?
    {
      var body := client.GetInventory(storeId, sku);
      ok, i := body.Ok?, if body.Ok? then |client.sent| - 1 else 0;
      r := match body case Ok(b) => OnHandOf(b) case Err(e) => NoFigures(e);
    }

    /** The units of the till rows. */
    method ReadUnits(storeId: string, sku: string) returns (r: Figures, ghost j: nat)
      requires client.Valid()
      modifies client`sent, client.secrets, client.secrets.mount, client.secrets.registry
      ensures old(client.secrets.values.Keys) <= client.secrets.values.Keys
      ensures r.NoFigures? && HoldsKey(storeId, old(client.secrets.values.Keys)) ==> !r.error.MissingCredential?
      ensures client.Valid() && OnlyReads(old(client.sent), client.sent)
      ensures r.Units? ==> LastRead(old(client.sent), client.sent, storeId, S.Pos(sku), j)
      ensures r.Units? ==> SalesShown(S.ReplyTo(client.answers, j), r)
      ensures r.Units? || r.NoFigures?
    {
      var body, compared := client.Read(storeId, S.Pos(sku));
      j := if body.Ok? then |client.sent| - 1 else 0;
      r := match body case Ok(b) => Units(b.units) case Err(e) => NoFigures(e);
    }

    /** The stock and the sales of one unit at one store, with the requests that read them. */
    method ReadPosition(storeId: string, sku: string)
      returns (e: Option<S.ClientError>, stock: Figures, sales: Figures, ghost i: nat, ghost j: nat)
      requires client.Valid()
      modifies client`sent, client.secrets, client.secrets.mount, client.secrets.registry
      ensures old(client.secrets.values.Keys) <= client.secrets.values.Keys
      ensures e.Some? && HoldsKey(storeId, old(client.secrets.values.Keys)) ==> !e.value.MissingCredential?
      ensures client.Valid() && OnlyReads(old(client.sent), client.sent)
      ensures e.None? ==> ReadBy(old(client.sent), client.sent, client.answers, storeId, sku, stock, sales, i, j)
    {
      j, sales := 0, Stock(None);
      ghost var before := client.sent;
      var ok;
      stock, ok, i := ReadInventory(storeId, sku);
      ghost var mid := client.sent;
      if !ok {
        e := Some(stock.error);
      } else {
        sales, j := ReadUnits(storeId, sku);
        OnlyReadsTrans(before, mid, client.sent);
        if sales.NoFigures? {
          e := Some(sales.error);
        } else if stock.NoFigures? {
          e := Some(stock.error);
        } else {
          e := None;
          BothRead(before, mid, client.sent, client.answers, storeId, sku, stock, sales, i, j);
        }
      }
    }

    /** `_measure`: check the identifiers, resolve the key, read, then assess. */
    method Measure(storeId: string, sku: string) returns (r: Result<Reading, ServiceError>, ghost from: Sources)
      requires client.Valid()
      modifies client`sent, client.secrets, client.secrets.mount, client.secrets.registry
      ensures old(client.secrets.values.Keys) <= client.secrets.values.Keys
      ensures r.Ok? ==> HoldsKey(r.value.storeId, client.secrets.values.Keys)
      ensures r.Err? && HoldsStore(storeId, old(client.secrets.values.Keys)) ==> !KeyMissing(r.error)
      ensures client.Valid() && OnlyReads(old(client.sent), client.sent)
      ensures ValidateStoreId(storeId).Err? || ValidateSku(sku).Err? ==> r.Err? && client.sent == old(client.sent)
      ensures r.Ok? ==> r.value.Checked()
      ensures r.Ok? ==> ValidateStoreId(storeId) == Ok(r.value.storeId) && ValidateSku(sku) == Ok(r.value.sku)
      ensures r.Ok? ==> ReadingBy(old(client.sent), client.sent, client.answers, r.value, from)
    {
      from := Sources(0, 0, 0);
      var checkedStore, checkedSku := ValidateStoreId(storeId), ValidateSku(sku);
      if checkedStore.Err? || checkedSku.Err? {
        return Err(Rejected(InvalidRequest)), from;
      }
      var key, access := ResolveStoreKey(client.secrets, checkedStore.value);
      if key.Err? {
        return Err(Client(S.ErrorOf(key.error))), from;
      }
      r, from := ReadReading(checkedStore.value, checkedSku.value);
      ValidateIdIff(storeId, 10);
      ValidateIdIff(sku, 20);
    }

    /** Read the store's record, the unit's, the stock and the till rows, then assess. */
    method ReadReading(storeId: string, sku: string) returns (r: Result<Reading, ServiceError>, ghost from: Sources)
      requires client.Valid()
      modifies client`sent, client.secrets, client.secrets.mount, client.secrets.registry
      ensures old(client.secrets.values.Keys) <= client.secrets.values.Keys
      ensures r.Err? && HoldsKey(storeId, old(client.secrets.values.Keys)) ==> !KeyMissing(r.error)
      ensures client.Valid() && OnlyReads(old(client.sent), client.sent)
      ensures r.Ok? ==> r.value.storeId == storeId && r.value.sku == sku
      ensures r.Ok? ==> ReadingBy(old(client.sent), client.sent, client.answers, r.value, from)
      ensures r.Ok? ==> r.value.stock.Stock? && r.value.sales.Units? && Assess(r.value.Position()).Ok?
    {
      ghost var sent0, k, i, j := client.sent, 0, 0, 0;
      from := Sources(0, 0, 0);
      var store;
      store, k := ReadOne(storeId, S.Store);
      ghost var sent1 := client.sent;
      if store.Err? {
        return Err(store.error), from;
      }
      var record, unused := ReadOne(storeId, S.Sku(sku));
      ghost var sent2 := client.sent;
      OnlyReadsTrans(sent0, sent1, sent2);
      if record.Err? {
        return Err(record.error), from;
      }
      var e, stock, sales;
      e, stock, sales, i, j := ReadPosition(storeId, sku);
      OnlyReadsTrans(sent0, sent2, client.sent);
      if e.Some? {
        return Err(Client(e.value)), from;
      }
      from := Sources(k, i, j);
      ReadByEarlier(sent0, sent2, client.sent, client.answers, storeId, sku, stock, sales, i, j);
      StoreRead(sent0, sent1, sent2, client.sent, client.answers, storeId, store.value, from);
      var reading := Reading(storeId, sku, stock, sales, store.value);
      var assessed := Assess(reading.Position());
      r := if assessed.Err? then Err(Rejected(assessed.error)) else Ok(reading);
    }

    /** Time passes. */
    method Wait(elapsed: nat, ghost taken: seq<Placed>)
      requires Mirrors(events, P.Idle, store.results, audit.records, clock, taken)
      modifies `clock, `events
      ensures Mirrors(events, P.Idle, store.results, audit.records, clock, taken) && clock == old(clock) + elapsed
      ensures old(events) <= events
    {
      MirrorsLater(events, store.results, audit.records, clock, taken, elapsed);
      clock := clock + elapsed;
      events := events + seq(elapsed, i => P.Tick);
    }

    /** Record a refusal. */
    method Refuse(reading: Reading, ghost taken: seq<Placed>) returns (append: Append)
      requires Mirrors(events, P.Idle, store.results, audit.records, clock, taken)
      requires reading.Checked() && OrderQuantity(reading.Position()).None?
      modifies audit, `events
      ensures Mirrors(events, P.Idle, store.results, audit.records, clock, taken)
      ensures old(events) <= events
      ensures audit.records == Noted(old(audit.records), P.OrderRefused(reading.Position()), append)
    {
      ghost var measured := Measured(reading, "");
      NoCall(reading, "");
      MirrorsRefusal(events, store.results, audit.records, clock, taken, measured);
      append := audit.Record(P.OrderRefused(reading.Position()));
      if append.LostAndRaised? {
        assert audit.records == old(audit.records);
      } else {
        assert audit.records == old(audit.records) + P.RefusalFor(measured);
        events := events + [measured];
      }
    }

    /** Note that the reading leads to this call. */
    ghost method Begin(reading: Reading, date: string, call: P.Call, taken: seq<Placed>)
      requires Mirrors(events, P.Idle, store.results, audit.records, clock, taken)
      requires reading.Checked() && CallOf(reading, date) == Some(call)
      modifies `events
      ensures Mirrors(events, P.Waiting(call), store.results, audit.records, clock, taken)
      ensures old(events) <= events
    {
      OneCall(reading, date);
      MirrorsMeasured(events, store.results, audit.records, clock, taken, Measured(reading, date));
      events := events + [Measured(reading, date)];
    }

    /** Hand the order to the store. */
    method Submit(call: P.Call)
      returns (executed: Result<OperationResult, ExecuteError>, ghost answer: Result<S.Body, S.ClientError>)
      requires client.Valid() && Strip(call.key) != ""
      modifies store, client`sent, client.secrets, client.secrets.mount, client.secrets.registry
      ensures old(client.secrets.values.Keys) <= client.secrets.values.Keys
      ensures executed.Err? && HoldsKey(call.position.storeId, old(client.secrets.values.Keys))
        ==> !NoCredential(executed.error)
      ensures client.Valid()
      ensures Done(old(store.results), store.results, old(client.sent), client.sent, client.answers, clock, call,
                   answer, executed)
    {
      var operation := new Placement(client, call.position.storeId, call.position.sku, call.quantity);
      executed, answer := store.Execute(call.key, operation, clock);
    }

    /** Report what came of it. */
    method Report(call: P.Call, executed: Result<OperationResult, ExecuteError>)
      returns (r: Result<OrderReport, ServiceError>, append: Append)
      modifies audit
      ensures r.Err? && KeyMissing(r.error) ==> executed.Err? && NoCredential(executed.error)
      ensures audit.records == Trail(old(audit.records), call, executed, append)
      ensures r.Ok? ==> executed.Ok? && append.Kept? && r.value == OrderReport(call, executed.value)
      ensures executed.Err? ==> append.Kept?
      ensures executed.Ok? && append.Kept? ==> r.Ok?
      ensures Reported(old(audit.records), audit.records, r)
      ensures r.Err? ==> Told(executed, r.error)
    {
      append := Kept;
      if executed.Err? {
        r := Err(if executed.error.KeyRequired? then BlankKey else Client(executed.error.error));
      } else {
        append := audit.Record(P.OrderRaised(call, executed.value));
        r := if append.Kept? then Ok(OrderReport(call, executed.value)) else Err(AuditFailed);
      }
    }

    /** Note the events that match an executed call. */
    ghost method Match(call: P.Call, executed: Result<OperationResult, ExecuteError>,
        answer: Result<S.Body, S.ClientError>, append: Append, results: Results, records: seq<P.AuditRecord>,
        sent: seq<S.Request>)
      requires Mirrors(events, P.Waiting(call), results, records, clock, Taken(sent, client.answers, effects))
      requires Done(results, store.results, sent, client.sent, client.answers, clock, call, answer, executed)
      requires audit.records == Trail(records, call, executed, append) && Strip(call.key) != ""
      modifies `events
      ensures Mirrors(events, P.Idle, store.results, audit.records, clock, Taken(client.sent, client.answers, effects))
      ensures old(events) <= events
    {
      var after, later, answers := store.results, client.sent, client.answers;
      var more := PlacedEvents(call.key in results, answer, Applied(sent, later, answers, effects), append);
      MirrorsPlaced(events, results, after, records, clock, sent, later, answers, effects, call, answer, executed,
                    append);
      events := events + more;
    }

    /** Report an executed call and note its events. */
    method Conclude(call: P.Call, executed: Result<OperationResult, ExecuteError>,
        ghost answer: Result<S.Body, S.ClientError>, ghost results: Results, ghost sent: seq<S.Request>)
      returns (r: Result<OrderReport, ServiceError>, append: Append)
      requires Mirrors(events, P.Waiting(call), results, audit.records, clock, Taken(sent, client.answers, effects))
      requires Done(results, store.results, sent, client.sent, client.answers, clock, call, answer, executed)
      requires Strip(call.key) != ""
      modifies audit, `events
      ensures r.Err? && KeyMissing(r.error) ==> executed.Err? && NoCredential(executed.error)
      ensures Mirrors(events, P.Idle, store.results, audit.records, clock, Taken(client.sent, client.answers, effects))
      ensures old(events) <= events
      ensures audit.records == Trail(old(audit.records), call, executed, append)
      ensures r.Ok? <==> executed.Ok? && append.Kept?
      ensures r.Ok? ==> r.value == OrderReport(call, executed.value)
      ensures Reported(old(audit.records), audit.records, r)
      ensures r.Err? ==> Told(executed, r.error)
    {
      ghost var records := audit.records;
      r, append := Report(call, executed);
      Match(call, executed, answer, append, results, records, sent);
    }

    method Place(call: P.Call)
      returns (r: Result<OrderReport, ServiceError>, ghost executed: Result<OperationResult, ExecuteError>,
               ghost answer: Result<S.Body, S.ClientError>, append: Append)
      requires client.Valid() && Strip(call.key) != ""
      requires HoldsKey(call.position.storeId, client.secrets.values.Keys)
      requires Mirrors(events, P.Waiting(call), store.results, audit.records, clock,
                       Taken(client.sent, client.answers, effects))
      modifies store, audit, `events, client`sent, client.secrets, client.secrets.mount, client.secrets.registry
      ensures old(client.secrets.values.Keys) <= client.secrets.values.Keys
      ensures r.Err? ==> !KeyMissing(r.error)
      ensures Valid() && old(events) <= events
      ensures Done(old(store.results), store.results, old(client.sent), client.sent, client.answers, clock, call,
                   answer, executed)
      ensures audit.records == Trail(old(audit.records), call, executed, append)
      ensures r.Ok? <==> executed.Ok? && append.Kept?
      ensures r.Ok? ==> r.value == OrderReport(call, executed.value)
      ensures Reported(old(audit.records), audit.records, r)
      ensures r.Err? ==> Told(executed, r.error)
    {
      ghost var results, sent := store.results, client.sent;
      var submitted;
      submitted, answer := Submit(call);
      executed := submitted;
      r, append := Conclude(call, submitted, answer, results, sent);
    }

    /** Refuse, or order. */
    method Decide(reading: Reading, date: string)
      returns (r: Result<OrderReport, ServiceError>, ghost executed: Result<OperationResult, ExecuteError>,
               ghost answer: Result<S.Body, S.ClientError>, append: Append)
      requires Valid() && reading.Checked() && HoldsKey(reading.storeId, client.secrets.values.Keys)
      modifies store, audit, `events, client`sent, client.secrets, client.secrets.mount, client.secrets.registry
      ensures old(client.secrets.values.Keys) <= client.secrets.values.Keys
      ensures r.Err? ==> !KeyMissing(r.error)
      ensures Valid() && clock == old(clock) && old(events) <= events
      ensures Decided(CallOf(reading, date), old(store.results), store.results, old(client.sent), client.sent,
                      client.answers, clock, answer, executed, r)
      ensures Recorded(CallOf(reading, date), reading.Position(), old(audit.records), audit.records, executed, append,
                       r)
      ensures Reported(old(audit.records), audit.records, r)
    {
      executed, answer := Err(KeyRequired), Err(S.Upstream);
      var decision := Assess(reading.Position()).value;
      if !decision.assessment.OrderRequired? {
        append := Refuse(reading, Taken(client.sent, client.answers, effects));
        r := Err(if !append.Kept? then AuditFailed
                 else if decision.assessment.NotStocked? then NotRanged else OutOfPolicy);
      } else {
        var call := CallOf(reading, date).value;
        CallHasKey(reading, date);
        Begin(reading, date, call, Taken(client.sent, client.answers, effects));
        r, executed, answer, append := Place(call);
      }
    }

    /** Measure while time passes: nothing is ordered, recorded or reported. */
    method MeasureAndWait(storeId: string, sku: string, elapsed: nat)
      returns (e: Option<ServiceError>, reading: Reading, ghost from: Sources)
      requires Valid()
      modifies `clock, `events, client`sent, client.secrets, client.secrets.mount, client.secrets.registry
      ensures old(client.secrets.values.Keys) <= client.secrets.values.Keys
      ensures e.None? ==> HoldsKey(reading.storeId, client.secrets.values.Keys)
      ensures e.Some? && HoldsStore(storeId, old(client.secrets.values.Keys)) ==> !KeyMissing(e.value)
      ensures Valid() && clock == old(clock) + elapsed && OnlyReads(old(client.sent), client.sent)
      ensures old(events) <= events
      ensures e.None? ==> MeasuredFor(storeId, sku, reading)
      ensures e.None? ==> ReadingBy(old(client.sent), client.sent, client.answers, reading, from)
    {
      ghost var before := client.sent;
      var measured;
      measured, from := Measure(storeId, sku);
      ReadsTakeNothing(before, client.sent, client.answers, effects);
      Wait(elapsed, Taken(client.sent, client.answers, effects));
      if measured.Ok? {
        e, reading := None, measured.value;
      } else {
        e, reading := Some(measured.error), Reading("", "", Stock(None), Stock(None), S.Body(None, [], None, None));
      }
    }

    /**
     * `raise_replenishment_order`. A measurement that fails and a reading that
     * calls for no order leave the upstream and the store as they were. Otherwise
     * one order goes to the store under its own key: a new key sends one post,
     * with the figures of the reads of this very call, and a known one none. The
     * trail grows by the refusal or the report, unless its append fails, and the
     * run of protocol events that matches the service is continued.
     */
    method RaiseReplenishmentOrder(storeId: string, sku: string, elapsed: nat)
      returns (r: Result<OrderReport, ServiceError>, ghost t: Trace)
      requires Valid()
      modifies this, store, audit, client`sent, client.secrets, client.secrets.mount, client.secrets.registry
      ensures old(client.secrets.values.Keys) <= client.secrets.values.Keys
      ensures t.measured ==> HoldsKey(t.reading.storeId, client.secrets.values.Keys)
      ensures r.Err? && HoldsStore(storeId, old(client.secrets.values.Keys)) ==> !KeyMissing(r.error)
      ensures Valid() && old(events) <= events
      ensures OnlyReads(old(client.sent), t.sent)
      ensures t.measured ==> MeasuredFor(storeId, sku, t.reading)
      ensures t.measured ==> ReadingBy(old(client.sent), t.sent, client.answers, t.reading, t.from)
      ensures t.now == clock == old(clock) + elapsed
      ensures t.measured ==> t.call == CallOf(t.reading, OrderingDate(t.reading.store, t.now))
      ensures !t.measured ==> r.Err? && t.call.None? && audit.records == old(audit.records)
      ensures Decided(t.call, old(store.results), store.results, t.sent, client.sent, client.answers, t.now, t.answer,
                      t.executed, r)
      ensures t.measured ==>
        Recorded(t.call, t.reading.Position(), old(audit.records), audit.records, t.executed, t.append, r)
      ensures Reported(old(audit.records), audit.records, r)
      ensures t.call.Some? ==>
        && t.measured && t.call.value.date == calendar(t.reading.store, clock)
        && OrdersGap(t.call.value, S.ReplyTo(client.answers, t.from.stock), S.ReplyTo(client.answers, t.from.sales))
      ensures t.measured && S.ReplyTo(client.answers, t.from.stock).Answered?
              && S.ReplyTo(client.answers, t.from.stock).status == 404 ==>
        && t.reading.stock.onHand.None? && t.call.None?
        && client.sent == t.sent && store.results == old(store.results)
        && audit.records == Noted(old(audit.records), P.OrderRefused(t.reading.Position()), t.append)
        && r.Err? && r.error == if t.append.Kept? then NotRanged else AuditFailed
      ensures t.measured && t.call.None? && t.reading.stock.onHand.Some? ==>
        && t.reading.stock.onHand.value >= 0 && P.Sum(t.reading.sales.units) - t.reading.stock.onHand.value <= 6
        && r.Err? && r.error == if t.append.Kept? then OutOfPolicy else AuditFailed
      ensures r.Ok? && r.value.result.outcome.Created? ==>
        |client.sent| == |t.sent| + 1 && Shows(r.value.result.response, S.ReplyTo(client.answers, |t.sent|))
    {
      var e, reading;
      ghost var from, results := Sources(0, 0, 0), store.results;
      e, reading, from := MeasureAndWait(storeId, sku, elapsed);
      t := Trace(client.sent, e.None?, reading, from, clock, None, Err(KeyRequired), Err(S.Upstream), Kept);
      if e.Some? {
        r := Err(e.value);
      } else {
        var date := OrderingDate(reading.store, clock);
        ghost var executed, answer, held;
        held := client.secrets.values.Keys;
        var append;
        r, executed, answer, append := Decide(reading, date);
        KeyStays(reading.storeId, held, client.secrets.values.Keys);
        CallIsShown(reading, date, S.ReplyTo(client.answers, from.stock), S.ReplyTo(client.answers, from.sales));
        t := t.(call := CallOf(reading, date), executed := executed, answer := answer, append := append);
        CreatedShows(t.call, results, store.results, t.sent, client.sent, client.answers, clock, answer, executed, r);
      }
    }

    /** Note an order's status in the trail. */
    method NoteStatus(storeId: string, orderId: string, ghost taken: seq<Placed>) returns (append: Append)
      requires Mirrors(events, P.Idle, store.results, audit.records, clock, taken)
      modifies audit, `events
      ensures Mirrors(events, P.Idle, store.results, audit.records, clock, taken)
      ensures old(events) <= events
      ensures audit.records == Noted(old(audit.records), P.StatusChecked(storeId, orderId), append)
    {
      MirrorsStatus(events, store.results, audit.records, clock, taken, storeId, orderId);
      append := audit.Record(P.StatusChecked(storeId, orderId));
      if append.LostAndRaised? {
        assert audit.records == old(audit.records);
      } else {
        events := events + [P.CheckStatus(storeId, orderId)];
      }
    }

    /** The key is resolved before anything is sent, and then only the order's own store is asked. */
    method ReadStatus(storeId: string, orderId: string) returns (r: Result<S.Body, ServiceError>, ghost k: nat)
      requires Valid()
      modifies client`sent, client.secrets, client.secrets.mount, client.secrets.registry
      ensures old(client.secrets.values.Keys) <= client.secrets.values.Keys
      ensures r.Ok? ==> HoldsKey(storeId, client.secrets.values.Keys)
      ensures r.Err? && HoldsKey(storeId, old(client.secrets.values.Keys)) ==> !KeyMissing(r.error)
      ensures Valid() && OnlyReads(old(client.sent), client.sent)
      ensures r.Ok? ==> StatusReadBy(old(client.sent), client.sent, client.answers, storeId, orderId, k, r.value)
      ensures r.Err? ==> !r.error.AuditFailed?
    {
      ghost var before := client.sent;
      var key, access := ResolveStoreKey(client.secrets, storeId);
      if key.Err? {
        r, k := Err(Client(S.ErrorOf(key.error))), 0;
      } else {
        r, k := ReadOne(storeId, S.OrderStatus(Strip(orderId)));
        ReadsTakeNothing(before, client.sent, client.answers, effects);
      }
    }

    /** Ask a checked store, then note the answer in the trail. */
    method CheckStatus(storeId: string, orderId: string)
      returns (r: Result<S.Body, ServiceError>, ghost k: nat, ghost append: Append)
      requires Valid()
      modifies audit, `events, client`sent, client.secrets, client.secrets.mount, client.secrets.registry
      ensures old(client.secrets.values.Keys) <= client.secrets.values.Keys
      ensures r.Ok? ==> HoldsKey(storeId, client.secrets.values.Keys)
      ensures r.Err? && HoldsKey(storeId, old(client.secrets.values.Keys)) ==> !KeyMissing(r.error)
      ensures Valid() && OnlyReads(old(client.sent), client.sent) && old(events) <= events
      ensures r.Ok? ==> StatusReadBy(old(client.sent), client.sent, client.answers, storeId, orderId, k, r.value)
      ensures StatusNoted(storeId, orderId, old(audit.records), audit.records, append, r)
    {
      append := Kept;
      r, k := ReadStatus(storeId, orderId);
      if r.Ok? {
        var noted := NoteStatus(storeId, orderId, Taken(client.sent, client.answers, effects));
        append := noted;
        if !noted.Kept? {
          r := Err(AuditFailed);
        }
      }
    }

    /**
     * `get_replenishment_order_status`: asking never orders or records anything.
     * The result is the upstream's answer about this order at the checked store,
     * and the trail grows by the check, unless its append fails.
     */
    method GetReplenishmentOrderStatus(storeId: string, orderId: string)
      returns (r: Result<S.Body, ServiceError>, ghost k: nat, ghost append: Append)
      requires Valid()
      modifies audit, `events, client`sent, client.secrets, client.secrets.mount, client.secrets.registry
      ensures old(client.secrets.values.Keys) <= client.secrets.values.Keys
      ensures r.Ok? ==> HoldsStore(storeId, client.secrets.values.Keys)
      ensures r.Err? && HoldsStore(storeId, old(client.secrets.values.Keys)) ==> !KeyMissing(r.error)
      ensures Valid() && OnlyReads(old(client.sent), client.sent) && old(events) <= events
      ensures
        var checked := ValidateStoreId(storeId);
        if checked.Err? then r.Err? && client.sent == old(client.sent) && audit.records == old(audit.records)
        else
          && (r.Ok? ==> StatusReadBy(old(client.sent), client.sent, client.answers, checked.value, orderId, k, r.value))
          && StatusNoted(checked.value, orderId, old(audit.records), audit.records, append, r)
    {
      var checked := ValidateStoreId(storeId);
      if checked.Err? {
        r, k, append := Err(Rejected(checked.error)), 0, Kept;
      } else {
        r, k, append := CheckStatus(checked.value, orderId);
      }
    }
  }

  /** The result is what the last request, about this order at this store, was answered. */
  ghost predicate StatusReadBy(before: seq<S.Request>, after: seq<S.Request>, answers: nat -> S.HttpReply,
      storeId: string, orderId: string, k: nat, body: S.Body)
  {
    LastRead(before, after, storeId, S.OrderStatus(Strip(orderId)), k) && Gives(answers, k, body)
  }

  /** An answer is noted in the trail and returned only if it could be; nothing else is noted. */
  predicate StatusNoted(storeId: string, orderId: string, records: seq<P.AuditRecord>, after: seq<P.AuditRecord>,
      append: Append, r: Result<S.Body, ServiceError>)
  {
    if r.Ok? || r.error.AuditFailed? then
      (r.Ok? <==> append.Kept?) && after == Noted(records, P.StatusChecked(storeId, orderId), append)
    else after == records
  }

  /** What happened in a call: the requests after measuring, the reading and the reads it came from, and the rest. */
  datatype Trace = Trace(sent: seq<S.Request>, measured: bool, reading: Reading, from: Sources, now: nat,
    call: Option<P.Call>, executed: Result<OperationResult, ExecuteError>, answer: Result<S.Body, S.ClientError>,
    append: Append)

  /** The reading is for the identifiers the caller gave, as checked. */
  predicate MeasuredFor(storeId: string, sku: string, reading: Reading) {
    && ValidateStoreId(storeId) == Ok(reading.storeId) && ValidateSku(sku) == Ok(reading.sku) && reading.Checked()
  }

  /** No call: nothing was posted or recorded. A call: it was executed, and a report says how. */
  ghost predicate Decided(call: Option<P.Call>, results: Results, after: Results, sent: seq<S.Request>,
      later: seq<S.Request>, answers: nat -> S.HttpReply, clock: nat, answer: Result<S.Body, S.ClientError>,
      executed: Result<OperationResult, ExecuteError>, r: Result<OrderReport, ServiceError>)
  {
    if call.None? then r.Err? && later == sent && after == results
    else
      && Done(results, after, sent, later, answers, clock, call.value, answer, executed)
      && (r.Ok? ==> executed.Ok? && r.value == OrderReport(call.value, executed.value))
  }

  /** A report that is returned is in the trail. */
  predicate Reported(records: seq<P.AuditRecord>, after: seq<P.AuditRecord>, r: Result<OrderReport, ServiceError>) {
    r.Ok? ==> after == records + [P.OrderRaised(r.value.call, r.value.result)]
  }

  /** The order is for the units in one answer less the stock in the other, not negative, and for seven or more. */
  predicate OrdersGap(call: P.Call, stock: S.HttpReply, sales: S.HttpReply) {
    && stock.Answered? && stock.body.Some? && stock.body.value.onHandUnits.Some? && sales.Answered? && sales.body.Some?
    && stock.body.value.onHandUnits.value >= 0
    && call.quantity == P.Sum(sales.body.value.units) - stock.body.value.onHandUnits.value
    && call.quantity >= 7 && call.rows == sales.body.value.units
    && call.position.onHandUnits == stock.body.value.onHandUnits
    && call.position.posUnitsSold24h == P.Sum(sales.body.value.units)
    && call.position.posTransactionCount == |sales.body.value.units|
  }

  /** The response has the identifier and the status of the order in an accepted answer. */
  predicate Shows(response: Response, reply: S.HttpReply) {
    && reply.Answered? && reply.status < 400 && reply.body.Some?
    && response.orderId == reply.body.value.orderId && response.status == reply.body.value.status
  }

  /** A created order is reported as the answer to its one post shows it. */
  lemma CreatedShows(call: Option<P.Call>, results: Results, after: Results, sent: seq<S.Request>,
      later: seq<S.Request>, answers: nat -> S.HttpReply, clock: nat, answer: Result<S.Body, S.ClientError>,
      executed: Result<OperationResult, ExecuteError>, r: Result<OrderReport, ServiceError>)
    requires Decided(call, results, after, sent, later, answers, clock, answer, executed, r)
    ensures r.Ok? && r.value.result.outcome.Created? ==>
      |later| == |sent| + 1 && Shows(r.value.result.response, S.ReplyTo(answers, |sent|))
  {
  }

  /** A call belongs to its date and orders what the answers show; a unit that is not ranged leads to none. */
  lemma CallIsShown(reading: Reading, date: string, stock: S.HttpReply, sales: S.HttpReply)
    requires StockShown(stock, reading.stock) && SalesShown(sales, reading.sales)
    ensures CallOf(reading, date).Some? ==>
      CallOf(reading, date).value.date == date && OrdersGap(CallOf(reading, date).value, stock, sales)
    ensures CallOf(reading, date).None? && reading.stock.onHand.Some? && Assess(reading.Position()).Ok? ==>
      reading.stock.onHand.value >= 0 && P.Sum(reading.sales.units) - reading.stock.onHand.value <= 6
    ensures stock.status == 404 ==> reading.stock.onHand.None? && CallOf(reading, date).None?
  {
    AssessIff(reading.Position());
    if CallOf(reading, date).Some? {
      OrderQuantityIff(reading.Position(), CallOf(reading, date).value.quantity);
    }
  }

  /** An error says what went wrong: the trail, the key, or the one error of the client. */
  predicate Told(executed: Result<OperationResult, ExecuteError>, e: ServiceError) {
    match e
    case AuditFailed => executed.Ok?
    case BlankKey => executed.Err? && executed.error.KeyRequired?
    case Client(error) => executed.Err? && executed.error.OperationFailed? && executed.error.error == error
    case _ => false
  }

  /** What the caller is told when nothing is ordered. */
  function Refusal(position: StockPosition, append: Append): ServiceError {
    if !append.Kept? then AuditFailed else if position.onHandUnits.None? then NotRanged else OutOfPolicy
  }

  /** What a measured call left in the trail, unless the append failed, and what its caller was told. */
  predicate Recorded(call: Option<P.Call>, position: StockPosition, records: seq<P.AuditRecord>,
      after: seq<P.AuditRecord>, executed: Result<OperationResult, ExecuteError>, append: Append,
      r: Result<OrderReport, ServiceError>)
  {
    if call.None? then
      && after == Noted(records, P.OrderRefused(position), append)
      && r.Err? && r.error == Refusal(position, append)
    else
      && after == Trail(records, call.value, executed, append)
      && (r.Ok? <==> executed.Ok? && append.Kept?)
      && (r.Err? ==> Told(executed, r.error))
  }

  /** The call a reading leads to on a given trading date. */
  function CallOf(reading: Reading, date: string): Option<P.Call>
    requires reading.stock.Stock? && reading.sales.Units?
  {
    var quantity := OrderQuantity(reading.Position());
    if quantity.None? then None
    else
      var fields := KeyFields(reading.storeId, reading.sku, quantity.value, date);
      Some(P.Call(reading.Position(), reading.sales.units, date, quantity.value, ReplenishmentKey(fields)))
  }

  lemma CallHasKey(reading: Reading, date: string)
    requires reading.stock.Stock? && reading.sales.Units? && CallOf(reading, date).Some?
    ensures Strip(CallOf(reading, date).value.key) != ""
    ensures CallOf(reading, date).value.position.storeId == reading.storeId
  {
    KeyIsNotBlank(KeyFields(reading.storeId, reading.sku, OrderQuantity(reading.Position()).value, date));
  }

  /** The protocol's event for this reading. */
  function Measured(reading: Reading, date: string): P.Event
    requires reading.stock.Stock? && reading.sales.Units?
  {
    P.Measure(0, reading.storeId, reading.sku, reading.stock.onHand, reading.sales.units, date, true)
  }

  /** Identifiers that have been checked are checked again unchanged. */
  lemma CheckedStays(id: string, limit: nat)
    requires IsId(id, limit)
    ensures ValidateId(id, limit) == Ok(id)
  {
    ValidateIdIff(id, limit);
    assert IsDigit(id[0]) && IsDigit(id[|id| - 1]);
    StripOfStripped(id);
  }

  lemma NoCall(reading: Reading, date: string)
    requires reading.Checked() && OrderQuantity(reading.Position()).None?
    ensures P.CallFor(Measured(reading, date)).None?
    ensures P.RefusalFor(Measured(reading, date)) == [P.OrderRefused(reading.Position())]
  {
    CheckedStays(reading.storeId, 10);
    CheckedStays(reading.sku, 20);
  }

  lemma OneCall(reading: Reading, date: string)
    requires reading.Checked() && OrderQuantity(reading.Position()).Some?
    ensures P.CallFor(Measured(reading, date)) == CallOf(reading, date)
  {
    CheckedStays(reading.storeId, 10);
    CheckedStays(reading.sku, 20);
  }

  /** The reading's record and figures are the answers to three requests sent since. */
  ghost predicate ReadingBy(before: seq<S.Request>, after: seq<S.Request>, answers: nat -> S.HttpReply,
      reading: Reading, from: Sources)
  {
    && StoreReadBy(before, after, answers, reading.storeId, reading.store, from)
    && ReadBy(before, after, answers, reading.storeId, reading.sku, reading.stock, reading.sales, from.stock,
              from.sales)
  }
}
