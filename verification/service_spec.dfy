/** What a service call sends, and which orders that leaves at the upstream. */
module ServiceSpec {
  import opened Text
  import opened Protocol
  import S = StoreLink

  /** Everything sent since is a read. */
  ghost predicate OnlyReads(before: seq<S.Request>, after: seq<S.Request>) {
    before <= after && forall i | |before| <= i < |after| :: after[i].Get?
  }

  /** The `i`-th request, the last one, is a read of this target sent since. */
  ghost predicate LastRead(before: seq<S.Request>, after: seq<S.Request>, storeId: string, target: S.Target, i: nat) {
    && |before| <= i && |after| == i + 1
    && after[i].Get? && after[i].storeId == storeId && after[i].target == target
  }

  /** The answer to the `k`-th request was accepted and has this body. */
  predicate Gives(answers: nat -> S.HttpReply, k: nat, body: S.Body) {
    var reply := S.ReplyTo(answers, k);
    reply.Answered? && reply.status < 400 && reply.body.Some? && reply.body.value == body
  }

  lemma OnlyReadsTrans(a: seq<S.Request>, b: seq<S.Request>, c: seq<S.Request>)
    requires OnlyReads(a, b) && OnlyReads(b, c)
    ensures OnlyReads(a, c)
  {
    assert forall i | 0 <= i < |b| :: c[i] == b[i];
  }

  /** Stock and till rows are what the `i`-th and the `j`-th request read, both sent since. */
  ghost predicate ReadBy(before: seq<S.Request>, after: seq<S.Request>, answers: nat -> S.HttpReply,
      storeId: string, sku: string, stock: Figures, sales: Figures, i: nat, j: nat)
  {
    && |before| <= i < j < |after|
    && after[i].Get? && after[i].storeId == storeId && after[i].target == S.Inventory(sku)
    && after[j].Get? && after[j].storeId == storeId && after[j].target == S.Pos(sku)
    && StockShown(S.ReplyTo(answers, i), stock) && SalesShown(S.ReplyTo(answers, j), sales)
  }

  /** The stock is unknown if the unit is not ranged, and otherwise the figure in an accepted answer. */
  predicate StockShown(reply: S.HttpReply, stock: Figures) {
    && reply.Answered? && stock.Stock?
    && if reply.status == 404 then stock.onHand.None?
       else
         && reply.status < 400 && reply.body.Some?
         && reply.body.value.onHandUnits.Some? && stock.onHand == reply.body.value.onHandUnits
  }

  /** The units are those of the till rows in an accepted answer. */
  predicate SalesShown(reply: S.HttpReply, sales: Figures) {
    && reply.Answered? && sales.Units? && reply.status < 400 && reply.body.Some?
    && sales.units == reply.body.value.units
  }

  /** The requests that read the store's record, the stock and the till rows. */
  datatype Sources = Sources(store: nat, stock: nat, sales: nat)

  /** The store's record, read first, is what that request was answered. */
  ghost predicate StoreReadBy(before: seq<S.Request>, after: seq<S.Request>, answers: nat -> S.HttpReply,
      storeId: string, store: S.Body, from: Sources)
  {
    && |before| <= from.store < from.stock && from.store < |after|
    && after[from.store].Get? && after[from.store].storeId == storeId && after[from.store].target == S.Store
    && Gives(answers, from.store, store)
  }

  lemma StoreRead(before: seq<S.Request>, first: seq<S.Request>, second: seq<S.Request>, after: seq<S.Request>,
      answers: nat -> S.HttpReply, storeId: string, store: S.Body, from: Sources)
    requires LastRead(before, first, storeId, S.Store, from.store) && Gives(answers, from.store, store)
    requires first <= second <= after && |second| <= from.stock
    ensures StoreReadBy(before, after, answers, storeId, store, from)
  {
    assert after[from.store] == second[from.store] == first[from.store];
  }

  lemma ReadByEarlier(before: seq<S.Request>, mid: seq<S.Request>, after: seq<S.Request>, answers: nat -> S.HttpReply,
      storeId: string, sku: string, stock: Figures, sales: Figures, i: nat, j: nat)
    requires before <= mid && ReadBy(mid, after, answers, storeId, sku, stock, sales, i, j)
    ensures ReadBy(before, after, answers, storeId, sku, stock, sales, i, j) && |mid| <= i
  {
  }

  /** What was read of an answer, or why nothing could be. */
  datatype Figures = Stock(onHand: Option<int>) | Units(units: seq<int>) | NoFigures(error: S.ClientError)

  /** The stock an inventory record gives: none if there is no record, an error if it carries no figure. */
  function OnHandOf(body: Option<S.Body>): Figures {
    if body.None? then Stock(None)
    else if body.value.onHandUnits.Some? then Stock(body.value.onHandUnits)
    else NoFigures(S.Malformed)
  }

  lemma BothRead(before: seq<S.Request>, mid: seq<S.Request>, after: seq<S.Request>, answers: nat -> S.HttpReply,
      storeId: string, sku: string, stock: Figures, sales: Figures, i: nat, j: nat)
    requires LastRead(before, mid, storeId, S.Inventory(sku), i) && OnlyReads(mid, after)
    requires LastRead(mid, after, storeId, S.Pos(sku), j)
    requires StockShown(S.ReplyTo(answers, i), stock) && SalesShown(S.ReplyTo(answers, j), sales)
    ensures ReadBy(before, after, answers, storeId, sku, stock, sales, i, j)
  {
    assert after[i] == mid[i];
  }

  /** An order as the upstream sees it. */
  datatype Placed = Placed(storeId: string, sku: string, quantityUnits: int)

  /** The upstream took the post and sent its order back. */
  predicate Accepted(reply: S.HttpReply) {
    reply.Answered? && reply.status < 400 && reply.body.Some?
  }

  /** Whether the `n`-th request, if a post, has an effect: an accepted one has, any other may have. */
  function TookEffect(answers: nat -> S.HttpReply, effects: nat -> bool, n: nat): bool {
    Accepted(S.ReplyTo(answers, n)) || effects(n)
  }

  /** The orders that the posts among these requests left at the upstream. */
  function Taken(sent: seq<S.Request>, answers: nat -> S.HttpReply, effects: nat -> bool): seq<Placed> {
    if sent == [] then []
    else
      var n := |sent| - 1;
      var r := sent[n];
      Taken(sent[..n], answers, effects)
      + if r.Post? && TookEffect(answers, effects, n) then [Placed(r.storeId, r.sku, r.quantityUnits)] else []
  }

  function PlacedBy(ledger: seq<Order>): seq<Placed> {
    if ledger == [] then []
    else
      var call := ledger[|ledger| - 1].call;
      PlacedBy(ledger[..|ledger| - 1]) + [Placed(call.position.storeId, call.position.sku, call.quantity)]
  }

  lemma {:induction false} ReadsTakeNothing(before: seq<S.Request>, after: seq<S.Request>, answers: nat -> S.HttpReply,
      effects: nat -> bool)
    requires OnlyReads(before, after)
    ensures Taken(after, answers, effects) == Taken(before, answers, effects)
    decreases |after|
  {
    if |after| > |before| {
      ReadsTakeNothing(before, after[..|after| - 1], answers, effects);
    } else {
      assert before == after;
    }
  }

  lemma PostTakes(before: seq<S.Request>, after: seq<S.Request>, answers: nat -> S.HttpReply, effects: nat -> bool)
    requires |after| == |before| + 1 && before <= after && after[|before|].Post?
    ensures Taken(after, answers, effects) == Taken(before, answers, effects)
      + if effects(|before|) || Accepted(S.ReplyTo(answers, |before|))
        then [Placed(after[|before|].storeId, after[|before|].sku, after[|before|].quantityUnits)] else []
  {
    assert after[..|before|] == before;
  }

  lemma PlacedOneMore(ledger: seq<Order>, o: Order)
    ensures PlacedBy(ledger + [o])
      == PlacedBy(ledger) + [Placed(o.call.position.storeId, o.call.position.sku, o.call.quantity)]
  {
    assert (ledger + [o])[..|ledger|] == ledger;
  }
}
