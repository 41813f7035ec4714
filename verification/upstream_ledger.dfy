/** The non-idempotent order book of the upstream stand-in. */
module UpstreamLedger {
  import opened Text

  datatype OrderRecord = OrderRecord(orderId: string, storeId: string, sku: string, quantityUnits: int, raisedAt: nat)

  /** The identifier of the `n`-th order, counting from one. */
  function OrderId(n: nat): string {
    "REP-" + Decimal(1000 + n)
  }

  lemma OrderIdInjective(m: nat, n: nat)
    ensures OrderId(m) == OrderId(n) <==> m == n
  {
    DecimalRoundTrip(1000 + m);
    DecimalRoundTrip(1000 + n);
    assert OrderId(m)[4..] == Decimal(1000 + m) && OrderId(n)[4..] == Decimal(1000 + n);
  }

  predicate Numbered(writes: seq<OrderRecord>) {
    forall i | 0 <= i < |writes| :: writes[i].orderId == OrderId(i + 1)
  }

  /** In any order book, numbered as orders come in, no two orders share an identifier. */
  lemma IdsAreDistinct(writes: seq<OrderRecord>, i: nat, j: nat)
    requires Numbered(writes) && i < |writes| && j < |writes|
    ensures writes[i].orderId == writes[j].orderId <==> i == j
  {
    OrderIdInjective(i + 1, j + 1);
  }

  class OrderBook {
    /** Orders that were there from the start. */
    const fixtures: seq<OrderRecord>
    var writes: seq<OrderRecord>

    ghost predicate Valid()
      reads this
    {
      Numbered(writes)
    }

    constructor (fixtures: seq<OrderRecord>)
      ensures Valid() && this.fixtures == fixtures && writes == []
    {
      this.fixtures, writes := fixtures, [];
    }

    /** Every post makes an order, however often the same one is posted. */
    method Post(storeId: string, sku: string, quantityUnits: int, now: nat) returns (order: OrderRecord)
      requires Valid()
      modifies this
      ensures Valid() && writes == old(writes) + [order]
      ensures order == OrderRecord(order.orderId, storeId, sku, quantityUnits, now)
      ensures forall i | 0 <= i < |old(writes)| :: old(writes)[i].orderId != order.orderId
    {
      order := OrderRecord("REP-" + Decimal(1000 + |writes| + 1), storeId, sku, quantityUnits, now);
      writes := writes + [order];
      forall i | 0 <= i < |old(writes)|
        ensures old(writes)[i].orderId != order.orderId
      {
        OrderIdInjective(i + 1, |old(writes)| + 1);
      }
    }

    /** The first record of this store with this identifier. */
    method Find(storeId: string, orderId: string) returns (found: Option<OrderRecord>)
      ensures found.Some? ==> found.value in fixtures + writes && Matches(found.value, storeId, orderId)
      ensures found.None? ==> forall r | r in fixtures + writes :: !Matches(r, storeId, orderId)
    {
      var records := fixtures + writes;
      for n := 0 to |records|
        invariant forall i | 0 <= i < n :: !Matches(records[i], storeId, orderId)
      {
        if records[n].storeId == storeId && records[n].orderId == orderId {
          return Some(records[n]);
        }
      }
      found := None;
    }

    /**
     * Looking an identifier up at a store: nothing, which the route answers with
     * 404, unless a fixture or a posted order of that store has it; and exactly
     * the posted order that has it, unless a fixture took its identifier.
     */
    method Status(storeId: string, orderId: string) returns (found: Option<OrderRecord>)
      requires Valid()
      ensures found.None? <==> forall r | r in fixtures + writes :: !Matches(r, storeId, orderId)
      ensures found.Some? ==> found.value in fixtures + writes && Matches(found.value, storeId, orderId)
      ensures (forall f | f in fixtures :: f.orderId != orderId) ==>
        forall order | order in writes && order.orderId == orderId ::
          found == if storeId == order.storeId then Some(order) else None
    {
      found := Find(storeId, orderId);
      if forall f | f in fixtures :: f.orderId != orderId {
        forall order | order in writes && order.orderId == orderId
          ensures found == if storeId == order.storeId then Some(order) else None
        {
          OneHolder(fixtures, writes, order, found, storeId, orderId);
        }
      }
    }
  }

  /** A posted order is what its identifier finds, when no fixture has the same. */
  lemma OneHolder(fixtures: seq<OrderRecord>, writes: seq<OrderRecord>, order: OrderRecord,
      found: Option<OrderRecord>, storeId: string, orderId: string)
    requires Numbered(writes) && order in writes && order.orderId == orderId
    requires forall f | f in fixtures :: f.orderId != orderId
    requires found.Some? ==> found.value in fixtures + writes && Matches(found.value, storeId, orderId)
    requires found.None? ==> forall r | r in fixtures + writes :: !Matches(r, storeId, orderId)
    ensures found == if storeId == order.storeId then Some(order) else None
  {
    assert order in fixtures + writes;
    if found.Some? {
      var n :| 0 <= n < |writes| && writes[n] == order;
      var m :| 0 <= m < |writes| && writes[m] == found.value;
      IdsAreDistinct(writes, m, n);
    }
  }

  predicate Matches(r: OrderRecord, storeId: string, orderId: string) {
    r.storeId == storeId && r.orderId == orderId
  }
}
