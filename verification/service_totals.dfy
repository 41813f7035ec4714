/** The service's own trail against the orders it has left at the upstream. */
module ServiceTotals {
  import opened Text
  import opened Idempotency
  import opened Protocol
  import opened ProtocolTheorems
  import opened ProtocolProvenance
  import opened ProtocolReporting
  import opened ServiceSpec
  import opened ServiceMirror

  function PlacedUnits(placed: seq<Placed>): int {
    if placed == [] then 0 else PlacedUnits(placed[..|placed| - 1]) + placed[|placed| - 1].quantityUnits
  }

  predicate AllConfirmed(ledger: seq<Order>) {
    forall i | 0 <= i < |ledger| :: ledger[i].confirmed
  }

  lemma {:induction false} ConfirmedAmongPlaced(ledger: seq<Order>)
    requires forall i | 0 <= i < |ledger| :: ledger[i].call.quantity >= 7
    ensures ConfirmedUnits(ledger) <= PlacedUnits(PlacedBy(ledger))
    ensures ConfirmedUnits(ledger) == PlacedUnits(PlacedBy(ledger)) <==> AllConfirmed(ledger)
  {
    if ledger != [] {
      var front, last := ledger[..|ledger| - 1], ledger[|ledger| - 1];
      ConfirmedAmongPlaced(front);
      LastApart(ledger);
      PlacedOneMore(front, last);
      var placed := PlacedBy(ledger);
      assert placed[..|placed| - 1] == PlacedBy(front);
      assert AllConfirmed(ledger) <==> AllConfirmed(front) && last.confirmed;
    }
  }

  /**
   * For a service between calls: the units its trail counts towards the daily
   * total are at most the units of the orders it left at the upstream, and the
   * two agree exactly when no counting report was lost and every order was
   * confirmed, that is, no post took effect and raised.
   */
  lemma TrailWithinOrders(events: seq<Event>, results: Results, records: seq<AuditRecord>, clock: nat,
      taken: seq<Placed>)
    requires Mirrors(events, Idle, results, records, clock, taken)
    ensures ReportedUnits(records) <= PlacedUnits(taken)
    ensures ReportedUnits(records) == PlacedUnits(taken) <==>
            Exec(1, events).lost == [] && AllConfirmed(Exec(1, events).ledger)
  {
    var s := Exec(1, events);
    assert Matches(s, Idle, results, records, clock, taken);
    ReportingIsConserved(1, events);
    forall i | 0 <= i < |s.ledger|
      ensures s.ledger[i].call.quantity >= 7
    {
      var m, p := OrderProvenance(1, events, i);
    }
    ConfirmedAmongPlaced(s.ledger);
  }

  /**
   * The same service has one order for every recorded key, and one more for
   * every post under that key that took effect and raised.
   */
  lemma OrdersPerRecordedKey(events: seq<Event>, results: Results, records: seq<AuditRecord>, clock: nat,
      taken: seq<Placed>, k: string)
    requires Mirrors(events, Idle, results, records, clock, taken)
    ensures
      var s := Exec(1, events);
      && taken == PlacedBy(s.ledger)
      && OrderedKeys(s.ledger)[k] == (if k in results then 1 else 0) + AppliedKeys(s.failures)[k]
  {
    assert Matches(Exec(1, events), Idle, results, records, clock, taken);
    OrdersPerKey(1, events, k);
  }
}
