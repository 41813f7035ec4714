/** What one call of `IdempotencyStore.execute` does, as a function of the store. */
module Idempotency {
  import opened Text

  datatype OperationOutcome = Created | Duplicate

  /** The fields of the upstream's answer that are read later. */
  datatype Response = Response(orderId: Option<string>, status: Option<string>)

  datatype OperationResult = OperationResult(
    outcome: OperationOutcome, requestKey: string, response: Response, recordedAt: nat)
  {
    predicate Deduplicated() {
      outcome.Duplicate?
    }

    predicate CountsTowardsTotals() {
      !Deduplicated()
    }
  }

  type Results = map<string, OperationResult>

  /** How the operation would end if it were run. */
  datatype Reply = Answers(response: Response) | Raises

  datatype Executed = Returned(result: OperationResult) | KeyRejected | OperationRaised

  /** One execution: the store afterwards and what the caller gets. */
  function Execute(results: Results, key: string, reply: Reply, now: nat): (Results, Executed) {
    if Strip(key) == "" then (results, KeyRejected) else ExecuteLocked(results, key, reply, now)
  }

  /** What happens while the lock is held. */
  function ExecuteLocked(results: Results, key: string, reply: Reply, now: nat): (Results, Executed) {
    if key in results then
      (results, Returned(OperationResult(Duplicate, key, results[key].response, results[key].recordedAt)))
    else
      match reply
      case Answers(response) =>
        var result := OperationResult(Created, key, response, now);
        (results[key := result], Returned(result))
      case Raises => (results, OperationRaised)
  }

  /** A completed execution, in the order the lock was released. */
  datatype Execution = Execution(key: string, reply: Reply, now: nat)

  /** The store after a sequence of executions, one at a time. */
  function StoreAfter(history: seq<Execution>): Results {
    if history == [] then map[]
    else
      var last := history[|history| - 1];
      ExecuteLocked(StoreAfter(history[..|history| - 1]), last.key, last.reply, last.now).0
  }

  /** What the callers got, in order. */
  function Handed(history: seq<Execution>): seq<OperationResult> {
    if history == [] then []
    else
      var front, last := history[..|history| - 1], history[|history| - 1];
      var executed := ExecuteLocked(StoreAfter(front), last.key, last.reply, last.now).1;
      Handed(front) + (if executed.Returned? then [executed.result] else [])
  }

  /** Every entry is the CREATED result of its own key. */
  predicate WellKept(results: Results) {
    forall k | k in results :: results[k].outcome.Created? && results[k].requestKey == k
  }

  /** A result repeats what the store holds under its key. */
  predicate Agrees(results: Results, r: OperationResult) {
    r.requestKey in results && r == results[r.requestKey].(outcome := r.outcome)
  }

  function CreatedKeys(handed: seq<OperationResult>): multiset<string> {
    if handed == [] then multiset{}
    else
      var last := handed[|handed| - 1];
      CreatedKeys(handed[..|handed| - 1]) + (if last.outcome.Created? then multiset{last.requestKey} else multiset{})
  }

  lemma CreatedKeysOfOneMore(handed: seq<OperationResult>, r: OperationResult)
    ensures CreatedKeys(handed + [r])
      == CreatedKeys(handed) + (if r.outcome.Created? then multiset{r.requestKey} else multiset{})
  {
    assert (handed + [r])[..|handed|] == handed;
  }

  /**
   * CREATED was handed out once for each recorded key and never otherwise, and
   * every result handed out agrees with the record.
   */
  predicate Consistent(results: Results, handed: seq<OperationResult>) {
    && WellKept(results)
    && CreatedKeys(handed) == multiset(results.Keys)
    && forall i | 0 <= i < |handed| :: Agrees(results, handed[i])
  }

  lemma DuplicateKeepsConsistent(results: Results, handed: seq<OperationResult>, r: OperationResult)
    requires Consistent(results, handed) && r.outcome.Duplicate? && Agrees(results, r)
    ensures Consistent(results, handed + [r])
  {
    CreatedKeysOfOneMore(handed, r);
  }

  lemma CreatedKeepsConsistent(results: Results, handed: seq<OperationResult>, r: OperationResult)
    requires Consistent(results, handed) && r.outcome.Created? && r.requestKey !in results
    ensures Consistent(results[r.requestKey := r], handed + [r])
  {
    CreatedKeysOfOneMore(handed, r);
    var after := results[r.requestKey := r];
    assert after.Keys == results.Keys + {r.requestKey};
    forall i | 0 <= i < |handed + [r]|
      ensures Agrees(after, (handed + [r])[i])
    {
      assert i < |handed| ==> Agrees(results, handed[i]);
    }
  }

  lemma ExecuteKeepsConsistent(results: Results, handed: seq<OperationResult>, key: string, reply: Reply, now: nat)
    requires Consistent(results, handed)
    ensures
      var (after, executed) := ExecuteLocked(results, key, reply, now);
      Consistent(after, if executed.Returned? then handed + [executed.result] else handed)
  {
    var (after, executed) := ExecuteLocked(results, key, reply, now);
    if executed.Returned? {
      if key in results {
        DuplicateKeepsConsistent(results, handed, executed.result);
      } else {
        CreatedKeepsConsistent(results, handed, executed.result);
      }
    }
  }

  /** Consistency holds over any history of executions. */
  lemma {:induction false} HandedIsConsistent(history: seq<Execution>)
    ensures Consistent(StoreAfter(history), Handed(history))
  {
    if history != [] {
      var front, last := history[..|history| - 1], history[|history| - 1];
      HandedIsConsistent(front);
      ExecuteKeepsConsistent(StoreAfter(front), Handed(front), last.key, last.reply, last.now);
      var executed := ExecuteLocked(StoreAfter(front), last.key, last.reply, last.now).1;
      assert executed.Returned? ==> Handed(history) == Handed(front) + [executed.result];
      assert !executed.Returned? ==> Handed(history) == Handed(front);
    }
  }

  /** Executions only add entries; none changes or disappears. */
  lemma {:induction false} EntriesStay(history: seq<Execution>, more: seq<Execution>)
    ensures StoreAfter(history).Keys <= StoreAfter(history + more).Keys
    ensures forall k | k in StoreAfter(history) :: StoreAfter(history + more)[k] == StoreAfter(history)[k]
  {
    if more == [] {
      assert history + more == history;
    } else {
      var front := more[..|more| - 1];
      FrontOfSum(history, more);
      EntriesStay(history, front);
    }
  }
}
