/** Any sequence of reads, orders and readiness checks over any number of stores, sharing one secrets provider. */
module AnyCalls {
  import opened Text
  import opened Credentials
  import opened Health
  import S = StoreLink

  datatype Call =
    | ReadCall(storeId: string, target: S.Target)
    | OrderCall(storeId: string, sku: string, quantityUnits: int)
    | ReadinessCall

  /** What a call came to; `asked` says whether it sent anything. */
  datatype Outcome = Gave(r: Result<S.Body, S.ClientError>, asked: bool) | Readied(ready: bool)

  /** The secret a call resolves, if its store identifier names one. */
  function SecretOf(call: Call): Option<string> {
    if call.ReadinessCall? then None else StoreKeySecretName(call.storeId)
  }

  predicate Missing(o: Outcome) {
    o.Gave? && o.r.Err? && o.r.error.MissingCredential?
  }

  /** The call got past resolving its key. */
  predicate Resolved(o: Outcome) {
    o.Gave? && (o.asked || o.r.Ok? || (!o.r.error.MissingCredential? && !o.r.error.Undecoded?))
  }

  predicate Ready(o: Outcome) {
    o.Readied? && o.ready
  }

  predicate NotReady(o: Outcome) {
    o.Readied? && !o.ready
  }

  /** What one call says about the secrets held before and after it. */
  ghost predicate Tells(call: Call, o: Outcome, before: set<string>, after: set<string>, probes: seq<string>,
      decodes: bool)
  {
    && before <= after
    && (o.Readied? <==> call.ReadinessCall?)
    && (Resolved(o) ==> SecretOf(call).Some? && SecretOf(call).value in after)
    && (Missing(o) && SecretOf(call).Some? ==> SecretOf(call).value !in before)
    && (Ready(o) ==> AllHeld(after, probes))
    && (NotReady(o) && decodes ==> !AllHeld(before, probes))
  }

  method RunOne(client: S.StoreLinkClient, health: HealthRegistry, call: Call) returns (o: Outcome)
    requires client.Valid() && health.Valid() && health.secrets == client.secrets
    modifies client`sent, client.secrets, client.secrets.mount, client.secrets.registry
    ensures client.Valid() && health.Valid() && old(client.sent) <= client.sent
    ensures o.Gave? ==> (o.asked <==> |client.sent| > |old(client.sent)|)
    ensures Tells(call, o, old(client.secrets.values.Keys), client.secrets.values.Keys, health.probes,
                  AllDecode(client.secrets.mount.files, health.probes))
  {
    var before := |client.sent|;
    match call {
      case ReadCall(storeId, target) =>
        var r, compared := client.Read(storeId, target);
        o := Gave(r, |client.sent| > before);
      case OrderCall(storeId, sku, quantityUnits) =>
        var r := client.CreateReplenishmentOrder(storeId, sku, quantityUnits);
        o := Gave(r, |client.sent| > before);
      case ReadinessCall =>
        var status, ready, results, accesses := health.Readiness();
        o := Readied(ready);
    }
  }

  /** Once some call for a secret got past resolving it, none later finds it missing. */
  predicate NeverMissingAgain(calls: seq<Call>, outcomes: seq<Outcome>)
    requires |outcomes| <= |calls|
  {
    forall i, j | 0 <= i < j < |outcomes| && Resolved(outcomes[i]) && SecretOf(calls[i]) == SecretOf(calls[j]) ::
      !Missing(outcomes[j])
  }

  /** Once ready, ready for good. */
  predicate NeverUnreadyAgain(outcomes: seq<Outcome>) {
    forall i, j | 0 <= i < j < |outcomes| && Ready(outcomes[i]) :: !NotReady(outcomes[j])
  }

  /** What the outcomes so far say about the secrets held now. */
  predicate HeldSince(calls: seq<Call>, outcomes: seq<Outcome>, held: set<string>, probes: seq<string>) {
    && |outcomes| <= |calls|
    && (forall i | 0 <= i < |outcomes| && Resolved(outcomes[i]) ::
          SecretOf(calls[i]).Some? && SecretOf(calls[i]).value in held)
    && (forall i | 0 <= i < |outcomes| && Ready(outcomes[i]) :: AllHeld(held, probes))
  }

  lemma OneMoreOutcome(calls: seq<Call>, outcomes: seq<Outcome>, o: Outcome, before: set<string>, after: set<string>,
      probes: seq<string>, decodes: bool)
    requires |outcomes| < |calls| && HeldSince(calls, outcomes, before, probes)
    requires Tells(calls[|outcomes|], o, before, after, probes, decodes)
    requires NeverMissingAgain(calls, outcomes) && (decodes ==> NeverUnreadyAgain(outcomes))
    ensures HeldSince(calls, outcomes + [o], after, probes)
    ensures NeverMissingAgain(calls, outcomes + [o]) && (decodes ==> NeverUnreadyAgain(outcomes + [o]))
  {
  }

  /**
   * Over any run, whatever the files, the upstream and the order of calls: a key
   * that has been resolved once is never missing again, for any store; readiness,
   * once reported, does not go away as long as the probed files decode; and every
   * request sent, then or before, carries a value its own store's file has held.
   */
  method RunAll(client: S.StoreLinkClient, health: HealthRegistry, calls: seq<Call>) returns (outcomes: seq<Outcome>)
    requires client.Valid() && health.Valid() && health.secrets == client.secrets
    modifies client`sent, client.secrets, client.secrets.mount, client.secrets.registry
    ensures client.Valid() && health.Valid() && |outcomes| == |calls| && old(client.sent) <= client.sent
    ensures NeverMissingAgain(calls, outcomes)
    ensures AllDecode(client.secrets.mount.files, health.probes) ==> NeverUnreadyAgain(outcomes)
    ensures forall r | r in client.sent :: S.SignedByStore(r, client.secrets.mount.files)
  {
    outcomes := [];
    ghost var decodes := AllDecode(client.secrets.mount.files, health.probes);
    for n := 0 to |calls|
      invariant client.Valid() && health.Valid() && |outcomes| == n && old(client.sent) <= client.sent
      invariant HeldSince(calls, outcomes, client.secrets.values.Keys, health.probes)
      invariant NeverMissingAgain(calls, outcomes) && (decodes ==> NeverUnreadyAgain(outcomes))
    {
      ghost var before := client.secrets.values.Keys;
      var o := RunOne(client, health, calls[n]);
      OneMoreOutcome(calls, outcomes, o, before, client.secrets.values.Keys, health.probes, decodes);
      outcomes := outcomes + [o];
    }
  }
}
