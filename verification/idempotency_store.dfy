/** `IdempotencyStore`: the write is sent only for a key that has no result yet. */
module IdempotencyStores {
  import opened Text
  import opened Credentials
  import opened Idempotency
  import S = StoreLink

  /** The operation handed to the store: one replenishment order, ready to be sent. */
  class Placement {
    const client: S.StoreLinkClient
    const storeId: string
    const sku: string
    const quantityUnits: int

    constructor (client: S.StoreLinkClient, storeId: string, sku: string, quantityUnits: int)
      ensures this.client == client && this.storeId == storeId && this.sku == sku && this.quantityUnits == quantityUnits
    {
      this.client, this.storeId, this.sku, this.quantityUnits := client, storeId, sku, quantityUnits;
    }

    method Run() returns (answer: Result<S.Body, S.ClientError>)
      requires client.Valid()
      modifies client`sent, client.secrets, client.secrets.mount, client.secrets.registry
      ensures client.Valid() && old(client.secrets.mount.tick) <= client.secrets.mount.tick
      ensures old(client.secrets.values.Keys) <= client.secrets.values.Keys
      ensures S.PostedOnce(old(client.sent), client.sent, storeId, sku, quantityUnits, client.answers, answer)
      ensures answer.Err? && HoldsKey(storeId, old(client.secrets.values.Keys)) ==> !answer.error.MissingCredential?
    {
      answer := client.CreateReplenishmentOrder(storeId, sku, quantityUnits);
    }
  }

  datatype ExecuteError = KeyRequired | OperationFailed(error: S.ClientError)

  predicate NoCredential(e: ExecuteError) {
    e.OperationFailed? && e.error.MissingCredential?
  }

  /** How the operation ended, as the store's specification sees it. */
  function ReplyOf(answer: Result<S.Body, S.ClientError>): Reply {
    match answer
    case Ok(body) => Answers(Response(body.orderId, body.status))
    case Err(_) => Raises
  }

  function ExecutedOf(r: Result<OperationResult, ExecuteError>): Executed {
    match r
    case Ok(result) => Returned(result)
    case Err(KeyRequired) => KeyRejected
    case Err(OperationFailed(_)) => OperationRaised
  }

  class IdempotencyStore {
    var results: Results

    constructor ()
      ensures results == map[]
    {
      results := map[];
    }

    /**
     * The operation runs exactly when the key is usable and has no result; its
     * answer is recorded, its failure is not. `now` is the time of recording.
     */
    method Execute(key: string, operation: Placement, now: nat)
      returns (r: Result<OperationResult, ExecuteError>, ghost answer: Result<S.Body, S.ClientError>)
      requires operation.client.Valid()
      modifies `results, operation.client`sent, operation.client.secrets, operation.client.secrets.mount
      modifies operation.client.secrets.registry
      ensures operation.client.Valid()
      ensures old(operation.client.secrets.mount.tick) <= operation.client.secrets.mount.tick
      ensures old(operation.client.secrets.values.Keys) <= operation.client.secrets.values.Keys
      ensures r.Err? && HoldsKey(operation.storeId, old(operation.client.secrets.values.Keys))
        ==> !NoCredential(r.error)
      ensures (results, ExecutedOf(r)) == Idempotency.Execute(old(results), key, ReplyOf(answer), now)
      ensures Strip(key) == "" || key in old(results) ==> operation.client.sent == old(operation.client.sent)
      ensures Strip(key) != "" && key !in old(results) ==>
        S.PostedOnce(old(operation.client.sent), operation.client.sent, operation.storeId, operation.sku,
                     operation.quantityUnits, operation.client.answers, answer)
      ensures Strip(key) != "" && key !in old(results) ==>
        if r.Err? then results == old(results)
        else
          var reply := S.ReplyTo(operation.client.answers, |old(operation.client.sent)|);
          && |operation.client.sent| == |old(operation.client.sent)| + 1
          && reply.Answered? && reply.status < 400 && reply.body.Some?
          && answer.Ok? && answer.value == reply.body.value
          && r.value.outcome.Created? && r.value.requestKey == key && r.value.recordedAt == now
          && r.value.response.orderId == reply.body.value.orderId && r.value.response.status == reply.body.value.status
          && results == old(results)[key := r.value]
    {
      answer := Err(S.Upstream);
      if key == "" || Strip(key) == "" {
        return Err(KeyRequired), answer;
      }
      if key in results {
        var existing := results[key];
        return Ok(OperationResult(Duplicate, key, existing.response, existing.recordedAt)), answer;
      }
      var response := operation.Run();
      answer := response;
      if response.Err? {
        return Err(OperationFailed(response.error)), answer;
      }
      var result := OperationResult(Created, key, Response(response.value.orderId, response.value.status), now);
      results := results[key := result];
      r := Ok(result);
    }

    method Seen(key: string) returns (seen: bool)
      ensures seen <==> key in results
    {
      seen := key in results;
    }
  }
}
