/**
 * `StoreLinkClient`: reads retried once across a key rotation, writes never. What
 * the upstream answers is arbitrary, and any key file may change at any step.
 */
module StoreLink {
  import opened Text
  import opened SecretCell
  import opened SecretCache
  import opened Secrets
  import opened Credentials

  datatype Target = Store | Sku(sku: string) | Inventory(sku: string) | Pos(sku: string) | OrderStatus(orderId: string)

  /** A request as sent; `at` is the step at which it left. */
  datatype Request =
    | Get(storeId: string, target: Target, key: string, at: nat)
    | Post(storeId: string, sku: string, quantityUnits: int, key: string, at: nat)

  /** The fields of an answer that are read later. */
  datatype Body = Body(onHandUnits: Option<int>, units: seq<int>, orderId: Option<string>, status: Option<string>)

  /** An answer whose body is not a JSON object has none. */
  datatype HttpReply = Unanswered | Answered(status: nat, body: Option<Body>)

  function ReplyTo(answers: nat -> HttpReply, n: nat): HttpReply {
    answers(n)
  }

  datatype ClientError = MissingCredential | Undecoded | UnknownEntity | Upstream | Malformed

  /** What an answer means for a read, once it is not retried. */
  function Verdict(reply: HttpReply): (r: Result<Body, ClientError>)
    ensures r.Err? ==> !r.error.MissingCredential? && !r.error.Undecoded?
    ensures Rejected(reply) ==> r == Err(Upstream)
  {
    if reply.Unanswered? then Err(Upstream)
    else if reply.status == 404 then Err(UnknownEntity)
    else if reply.status >= 400 then Err(Upstream)
    else if reply.body.None? then Err(Malformed)
    else Ok(reply.body.value)
  }

  predicate Rejected(reply: HttpReply) {
    reply.Answered? && reply.status == 401
  }

  function ErrorOf(e: KeyError): ClientError {
    match e
    case CredentialMissing => MissingCredential
    case KeyNotUtf8 => Undecoded
  }

  /** The request carries what its own store's file held at some earlier step. */
  ghost predicate SignedByStore(r: Request, files: string -> FileHistory) {
    var name := StoreKeySecretName(r.storeId);
    name.Some? && WasContent(FileOf(files, name.value), r.key, r.at)
  }

  /** Every request so far carries what its own store's file held before it was sent. */
  ghost predicate AllSigned(sent: seq<Request>, files: string -> FileHistory, tick: nat) {
    forall r | r in sent :: SignedByStore(r, files) && r.at <= tick
  }

  /** The value held is the one in the file at step `a`. */
  ghost predicate Pinned(held: Option<Held>, file: FileHistory, a: nat) {
    held.Some? && ValueIn(At(file, a)) == Some(held.value.value)
  }

  /**
   * From step `a` to step `b` nothing held was lost; if the file was steady, a
   * settled secret did not change and one with the file's value kept it.
   */
  ghost predicate Keeps(before: Option<Held>, after: Option<Held>, file: FileHistory, a: nat, b: nat) {
    && (before.Some? ==> after.Some?)
    && (Steady(file, a, b) && Settled(before, At(file, a)) ==> after == before)
    && (Steady(file, a, b) && Pinned(before, file, a) ==> Pinned(after, file, a))
  }

  /** A file steady for a while is steady for each part of it. */
  lemma SteadyParts(file: FileHistory, a: nat, b: nat, c: nat)
    requires a <= b <= c && Steady(file, a, c)
    ensures Steady(file, a, b) && At(file, b) == At(file, a) && Steady(file, b, c)
  {
  }

  lemma KeepsTrans(x: Option<Held>, y: Option<Held>, z: Option<Held>, file: FileHistory, a: nat, b: nat, c: nat)
    requires a <= b <= c && Keeps(x, y, file, a, b) && Keeps(y, z, file, b, c)
    ensures Keeps(x, z, file, a, c)
  {
    if Steady(file, a, c) {
      SteadyParts(file, a, b, c);
    }
  }

  lemma RefreshKeeps(cell: Cell, file: FileHistory, tick: nat, later: nat)
    requires tick < later <= tick + 2
    ensures Keeps(cell.held, Refreshed(cell, file, tick).held, file, tick, later)
    ensures !AccessAt(cell.held, file, tick).Crashed? && Steady(file, tick, later)
      ==> Settled(Refreshed(cell, file, tick).held, At(file, tick))
    ensures AccessAt(cell.held, file, tick).Crashed? ==> !Decodes(file)
    ensures ChangesTo(cell.held, Refreshed(cell, file, tick).held, file, tick)
  {
    HeldAfter(cell, file, tick);
    assert Steady(file, tick, later) ==> At(file, tick + 1) == At(file, tick);
    if !AccessAt(cell.held, file, tick).Crashed? && Steady(file, tick, later) {
      SteadyRefresh(cell, file, tick);
    }
  }

  /** A value that changed is the one the file has one step later. */
  ghost predicate ChangesTo(before: Option<Held>, after: Option<Held>, file: FileHistory, tick: nat) {
    before.Some? && after.Some? && after.value.value != before.value.value ==> Pinned(after, file, tick + 1)
  }

  class StoreLinkClient {
    const secrets: SecretsProvider
    /** The answer to each request, by the number of requests before it. */
    const answers: nat -> HttpReply
    var sent: seq<Request>

    ghost predicate Valid()
      reads this, secrets, secrets.mount, secrets.registry
    {
      secrets.Valid() && AllSigned(sent, secrets.mount.files, secrets.mount.tick)
    }

    constructor (secrets: SecretsProvider, answers: nat -> HttpReply)
      requires secrets.Valid()
      ensures Valid() && this.secrets == secrets && this.answers == answers && sent == []
    {
      this.secrets, this.answers := secrets, answers;
      sent := [];
    }

    /** A value is held for the secret exactly when the dictionaries have it. */
    lemma HeldIffKey(name: string)
      requires Valid()
      ensures Held(name).Some? <==> name in secrets.values
    {
    }

    ghost function Held(name: string): Option<Held>
      reads secrets
    {
      secrets.Fields().HeldOf(name)
    }

    method Send(request: Request) returns (reply: HttpReply)
      requires Valid() && SignedByStore(request, secrets.mount.files) && request.at <= secrets.mount.tick
      modifies `sent
      ensures Valid() && sent == old(sent) + [request] && reply == ReplyTo(answers, |old(sent)|)
    {
      reply := ReplyTo(answers, |sent|);
      sent := sent + [request];
    }

    /** The store's key as of now. */
    method Key(storeId: string, name: string) returns (r: Result<string, ClientError>)
      requires Valid() && StoreKeySecretName(storeId) == Some(name)
      modifies secrets, secrets.mount, secrets.registry
      ensures Valid() && old(secrets.mount.tick) <= secrets.mount.tick && sent == old(sent)
      ensures old(secrets.values.Keys) <= secrets.values.Keys
      ensures Keeps(old(Held(name)), Held(name), FileOf(secrets.mount.files, name), old(secrets.mount.tick),
                    secrets.mount.tick)
      ensures r.Ok? ==> Held(name).Some? && r.value == Held(name).value.value
      ensures r.Ok? ==> WasContent(FileOf(secrets.mount.files, name), r.value, secrets.mount.tick)
      ensures r.Ok? && Steady(FileOf(secrets.mount.files, name), old(secrets.mount.tick), secrets.mount.tick)
        ==> Settled(Held(name), At(FileOf(secrets.mount.files, name), old(secrets.mount.tick)))
      ensures r.Err? ==> r == Err(Undecoded) || (r == Err(MissingCredential) && Held(name).None?)
      ensures r == Err(Undecoded) ==> !Decodes(FileOf(secrets.mount.files, name))
      ensures r.Ok? ==> old(secrets.mount.tick) < secrets.mount.tick
      ensures r.Ok? ==>
        ChangesTo(old(Held(name)), Held(name), FileOf(secrets.mount.files, name), old(secrets.mount.tick))
    {
      ghost var cell := secrets.Fields().CellOf(name);
      ghost var tick := secrets.mount.tick;
      var key, access := ResolveStoreKey(secrets, storeId);
      RefreshKeeps(cell, FileOf(secrets.mount.files, name), tick, secrets.mount.tick);
      assert Held(name) == secrets.Fields().CellOf(name).held;
      r := if key.Ok? then Ok(key.value) else Err(ErrorOf(key.error));
    }

    /** The diagnostic line of a request reports the secret's state, which looks the file up twice. */
    method Log(name: string) returns (ok: bool)
      requires Valid()
      modifies secrets, secrets.mount, secrets.registry
      ensures Valid() && old(secrets.mount.tick) <= secrets.mount.tick && sent == old(sent)
      ensures old(secrets.values.Keys) <= secrets.values.Keys
      ensures Keeps(old(Held(name)), Held(name), FileOf(secrets.mount.files, name), old(secrets.mount.tick),
                    secrets.mount.tick)
      ensures !ok ==> !Decodes(FileOf(secrets.mount.files, name))
    {
      ok := ReportState(name);
      if !ok {
        return;
      }
      ghost var middle, tick := Held(name), secrets.mount.tick;
      ok := ReportState(name);
      KeepsTrans(old(Held(name)), middle, Held(name), FileOf(secrets.mount.files, name), old(secrets.mount.tick), tick,
                 secrets.mount.tick);
    }

    method ReportState(name: string) returns (ok: bool)
      requires Valid()
      modifies secrets, secrets.mount, secrets.registry
      ensures Valid() && old(secrets.mount.tick) <= secrets.mount.tick && sent == old(sent)
      ensures old(secrets.values.Keys) <= secrets.values.Keys
      ensures Keeps(old(Held(name)), Held(name), FileOf(secrets.mount.files, name), old(secrets.mount.tick),
                    secrets.mount.tick)
      ensures !ok ==> !Decodes(FileOf(secrets.mount.files, name))
    {
      ghost var cell := secrets.Fields().CellOf(name);
      ghost var tick := secrets.mount.tick;
      var state, access := secrets.State(name);
      RefreshKeeps(cell, FileOf(secrets.mount.files, name), tick, secrets.mount.tick);
      assert Held(name) == secrets.Fields().CellOf(name).held;
      ok := state.Ok?;
    }

    /** Resolve the key and send one read with it. */
    method Try(storeId: string, name: string, target: Target, ghost held: Option<Held>, ghost file: FileHistory,
        ghost start: nat)
      returns (key: Result<string, ClientError>, reply: HttpReply)
      requires Valid() && StoreKeySecretName(storeId) == Some(name)
      requires held == Held(name) && file == FileOf(secrets.mount.files, name) && start == secrets.mount.tick
      modifies `sent, secrets, secrets.mount, secrets.registry
      ensures Valid() && start <= secrets.mount.tick
      ensures old(secrets.values.Keys) <= secrets.values.Keys
      ensures key.Ok? ==> Held(name).Some? && Held(name).value.value == key.value
      ensures key.Ok? ==> reply == ReplyTo(answers, |old(sent)|)
      ensures key.Ok? && Steady(file, start, secrets.mount.tick) ==> Settled(Held(name), At(file, start))
      ensures key.Ok? ==> sent == old(sent) + [Get(storeId, target, key.value, secrets.mount.tick)]
      ensures key.Err? ==> sent == old(sent)
      ensures key.Err? ==> key.error.Undecoded? || (key.error.MissingCredential? && held.None?)
      ensures key.Err? && key.error.Undecoded? ==> !Decodes(file)
      ensures SendsHeld(held, start, old(sent), sent, file)
    {
      reply := Unanswered;
      ghost var before := sent;
      key := Key(storeId, name);
      if key.Ok? {
        var request := Get(storeId, target, key.value, secrets.mount.tick);
        HeldIsSent(held, Held(name), start, before, request, file);
        reply := Send(request);
      }
    }

    /** After a rejection: resolve the key again and compare, then log. */
    method AfterRejection(storeId: string, name: string, key: string)
      returns (decoded: bool, rotated: bool, ghost compared: string)
      requires Valid() && StoreKeySecretName(storeId) == Some(name)
      requires Held(name).Some? && Held(name).value.value == key
      modifies secrets, secrets.mount, secrets.registry
      ensures Valid() && old(secrets.mount.tick) <= secrets.mount.tick && sent == old(sent)
      ensures old(secrets.values.Keys) <= secrets.values.Keys && Held(name).Some?
      ensures if decoded then rotated <==> compared != key
              else !rotated && !Decodes(FileOf(secrets.mount.files, name))
      ensures rotated ==> ReadLast(Held(name), compared, FileOf(secrets.mount.files, name), old(secrets.mount.tick),
                                   secrets.mount.tick)
      ensures rotated ==> Rotates(old(Held(name)), FileOf(secrets.mount.files, name), old(secrets.mount.tick),
                                  secrets.mount.tick)
    {
      decoded, rotated, compared := false, false, "";
      ghost var before, file, start := Held(name), FileOf(secrets.mount.files, name), secrets.mount.tick;
      var again := Key(storeId, name);
      if again.Ok? {
        ghost var held, tick := Held(name), secrets.mount.tick;
        decoded := Log(name);
        rotated, compared := decoded && again.value != key, again.value;
        if rotated {
          ReadLastStill(before, held, Held(name), file, start, tick, secrets.mount.tick);
        }
      }
    }

    /** The body of the read loop: one read, and whether its rejected key turned out to have changed. */
    method ReadOnce(storeId: string, name: string, target: Target)
      returns (r: Result<Body, ClientError>, rotated: bool, ghost compared: string, ghost at: nat)
      requires Valid() && StoreKeySecretName(storeId) == Some(name)
      modifies `sent, secrets, secrets.mount, secrets.registry
      ensures Valid() && old(secrets.mount.tick) <= secrets.mount.tick
      ensures old(secrets.values.Keys) <= secrets.values.Keys
      ensures SentOne(old(sent), sent, storeId, target) && (sent != old(sent) ==> Held(name).Some?)
      ensures JudgedOne(old(sent), sent, answers, r, rotated, compared)
      ensures r.Err? && r.error.MissingCredential? ==> old(Held(name)).None?
      ensures r.Err? && r.error.Undecoded? ==> !Decodes(FileOf(secrets.mount.files, name))
      ensures rotated ==> |sent| > |old(sent)| && at == sent[|old(sent)|].at
      ensures rotated ==> ReadLast(Held(name), compared, FileOf(secrets.mount.files, name), at, secrets.mount.tick)
      ensures rotated ==> !Steady(FileOf(secrets.mount.files, name), old(secrets.mount.tick), secrets.mount.tick)
      ensures SendsHeld(old(Held(name)), old(secrets.mount.tick), old(sent), sent, FileOf(secrets.mount.files, name))
    {
      rotated, compared := false, "";
      var key, reply := Try(storeId, name, target, Held(name), FileOf(secrets.mount.files, name), secrets.mount.tick);
      at := secrets.mount.tick;
      SentIs(old(sent), sent, storeId, target);
      if key.Err? {
        r := Err(key.error);
      } else if reply.Answered? && reply.status == 401 {
        ghost var tried, held := sent, Held(name);
        var decoded;
        decoded, rotated, compared := AfterRejection(storeId, name, key.value);
        r := Err(if decoded then Upstream else Undecoded);
        JudgedRejection(old(sent), tried, answers, r, rotated, compared, key.value);
        if rotated {
          RotatedIsUnsteady(held, FileOf(secrets.mount.files, name), old(secrets.mount.tick), at, secrets.mount.tick);
        }
      } else {
        var logged := Log(name);
        r := if logged then Verdict(reply) else Err(Undecoded);
      }
    }

    /**
     * `_get`. One read is sent, or two, or none without a key. The second follows
     * a rejected first one exactly when the key, read from the store's file again
     * as `compared` in the step after the first request, had changed; so it is
     * never sent while the file holds still, and it carries the key compared, not
     * the rejected one, if the file holds still from that reading to the second
     * request. The last answer decides the result, unless a
     * file that is not UTF-8 raises. The raise after the loop is never reached.
     */
    method Read(storeId: string, target: Target) returns (r: Result<Body, ClientError>, ghost compared: Option<string>)
      requires Valid()
      modifies `sent, secrets, secrets.mount, secrets.registry
      ensures Valid() && old(secrets.mount.tick) <= secrets.mount.tick
      ensures old(secrets.values.Keys) <= secrets.values.Keys
      ensures old(sent) <= sent && |sent| <= |old(sent)| + 2 && Reads(old(sent), sent, storeId, target)
      ensures Judged(|old(sent)|, |sent|, answers, r)
      ensures RetriesOnChange(old(sent), sent, answers, r, compared)
      ensures StoreKeySecretName(storeId).None? ==> r == Err(MissingCredential) && sent == old(sent)
      ensures StoreKeySecretName(storeId).Some? ==>
        KeyServes(StoreKeySecretName(storeId).value, r, old(secrets.values.Keys), secrets.values.Keys, old(sent), sent)
      ensures StoreKeySecretName(storeId).Some? ==>
        SecondIsAnother(old(sent), sent, FileOf(secrets.mount.files, StoreKeySecretName(storeId).value), compared,
                        old(secrets.mount.tick), secrets.mount.tick)
    {
      compared := None;
      var keyName := StoreKeySecretName(storeId);
      if keyName.None? {
        return Err(MissingCredential), compared;
      }
      var name := keyName.value;
      ghost var at, file, start := 0, FileOf(secrets.mount.files, name), secrets.mount.tick;
      for attempt := 1 to 3
        invariant attempt <= 2 && Valid() && start <= secrets.mount.tick
        invariant old(secrets.values.Keys) <= secrets.values.Keys
        invariant attempt == 1 ==> sent == old(sent) && secrets.values == old(secrets.values)
        invariant attempt == 2 ==> compared.Some? && name in secrets.values
        invariant attempt == 2 ==> ReadLast(Held(name), compared.value, file, at, secrets.mount.tick)
        invariant attempt == 2 ==> Changed(old(sent), sent, storeId, target, answers, compared)
        invariant attempt == 2 ==> at == sent[|old(sent)|].at && !Steady(file, start, secrets.mount.tick)
      {
        ghost var before, held, tick := sent, Held(name), secrets.mount.tick;
        var rotated;
        ghost var again, sentAt;
        r, rotated, again, sentAt := ReadOnce(storeId, name, target);
        HeldIffKey(name);
        if attempt == 1 {
          at, compared := sentAt, Some(again);
          OneRead(before, sent, storeId, target, answers, r, rotated, again);
        } else {
          TwoReads(old(sent), before, sent, storeId, target, answers, compared, r, rotated, again);
          CompareSecond(held, tick, old(sent), before, sent, file, compared.value, at, start, secrets.mount.tick);
        }
        if rotated && attempt == 1 {
          continue;
        }
        return;
      }
      assert false;
    }

    /** A key once held is never missing, nothing is sent without one, and content that decodes does not raise. */
    ghost predicate KeyServes(name: string, r: Result<Body, ClientError>, before: set<string>, after: set<string>,
        sentBefore: seq<Request>, sentAfter: seq<Request>)
    {
      && (name in before && r.Err? ==> !r.error.MissingCredential?)
      && (sentAfter != sentBefore ==> name in after)
      && (Decodes(FileOf(secrets.mount.files, name)) && r.Err? ==> !r.error.Undecoded?)
    }

    /** A stock unit not ranged at the store is an outcome, not an error. */
    method GetInventory(storeId: string, sku: string) returns (r: Result<Option<Body>, ClientError>)
      requires Valid()
      modifies `sent, secrets, secrets.mount, secrets.registry
      ensures Valid() && old(secrets.mount.tick) <= secrets.mount.tick
      ensures old(secrets.values.Keys) <= secrets.values.Keys
      ensures old(sent) <= sent && |sent| <= |old(sent)| + 2 && Reads(old(sent), sent, storeId, Inventory(sku))
      ensures r.Ok? ==> |sent| > |old(sent)|
      ensures |sent| > |old(sent)| && !(r.Err? && r.error.Undecoded?) ==>
        var reply := ReplyTo(answers, |sent| - 1);
        && (r.Ok? <==> reply.Answered? && (reply.status == 404 || (reply.status < 400 && reply.body.Some?)))
        && (r.Ok? ==> r.value == if reply.status == 404 then None else reply.body)
      ensures r.Err? && HoldsKey(storeId, old(secrets.values.Keys)) ==> !r.error.MissingCredential?
    {
      var answer, compared := Read(storeId, Inventory(sku));
      match answer {
        case Ok(body) => r := Ok(Some(body));
        case Err(UnknownEntity) => r := Ok(None);
        case Err(e) => r := Err(e);
      }
    }

    /** Resolve the key and send one order with it. */
    method Submit(storeId: string, name: string, sku: string, quantityUnits: int)
      returns (key: Result<string, ClientError>, reply: HttpReply)
      requires Valid() && StoreKeySecretName(storeId) == Some(name)
      modifies `sent, secrets, secrets.mount, secrets.registry
      ensures Valid() && old(secrets.mount.tick) <= secrets.mount.tick
      ensures old(secrets.values.Keys) <= secrets.values.Keys
      ensures key.Ok? ==> reply == ReplyTo(answers, |old(sent)|)
      ensures key.Ok? ==> PostSent(old(sent), sent, storeId, sku, quantityUnits) && name in secrets.values
      ensures key.Err? ==> sent == old(sent)
      ensures key.Err? ==> key.error.Undecoded? || (key.error.MissingCredential? && name !in old(secrets.values))
      ensures key.Err? && key.error.Undecoded? ==> !Decodes(FileOf(secrets.mount.files, name))
    {
      reply := Unanswered;
      HeldIffKey(name);
      key := Key(storeId, name);
      HeldIffKey(name);
      if key.Ok? {
        var request := Post(storeId, sku, quantityUnits, key.value, secrets.mount.tick);
        reply := Send(request);
      }
    }

    /** Send one order and log it. */
    method WriteOnce(storeId: string, name: string, sku: string, quantityUnits: int)
      returns (r: Result<Body, ClientError>)
      requires Valid() && StoreKeySecretName(storeId) == Some(name)
      modifies `sent, secrets, secrets.mount, secrets.registry
      ensures Valid() && old(secrets.mount.tick) <= secrets.mount.tick
      ensures old(secrets.values.Keys) <= secrets.values.Keys
      ensures PostedOnce(old(sent), sent, storeId, sku, quantityUnits, answers, r)
      ensures KeyServes(name, r, old(secrets.values.Keys), secrets.values.Keys, old(sent), sent)
    {
      var key, reply := Submit(storeId, name, sku, quantityUnits);
      if key.Err? {
        r := Err(key.error);
      } else {
        ghost var posted := sent;
        var logged := Log(name);
        r := if logged then PostVerdict(reply) else Err(Undecoded);
        PostedIs(old(sent), posted, storeId, sku, quantityUnits, answers, r);
      }
    }

    /**
     * One order is sent, or none without a key, and never a second one whatever
     * the answer; only an accepted, readable answer that could be logged counts.
     */
    method CreateReplenishmentOrder(storeId: string, sku: string, quantityUnits: int)
      returns (r: Result<Body, ClientError>)
      requires Valid()
      modifies `sent, secrets, secrets.mount, secrets.registry
      ensures Valid() && old(secrets.mount.tick) <= secrets.mount.tick
      ensures old(secrets.values.Keys) <= secrets.values.Keys
      ensures PostedOnce(old(sent), sent, storeId, sku, quantityUnits, answers, r)
      ensures r.Ok? ==> |sent| == |old(sent)| + 1
      ensures |sent| > |old(sent)| && !(r.Err? && r.error.Undecoded?) ==>
        var reply := ReplyTo(answers, |old(sent)|);
        && (r.Ok? <==> reply.Answered? && reply.status < 400 && reply.body.Some?)
        && (r.Ok? ==> reply.body == Some(r.value))
      ensures StoreKeySecretName(storeId).None? ==> r == Err(MissingCredential) && sent == old(sent)
      ensures StoreKeySecretName(storeId).Some? ==>
        KeyServes(StoreKeySecretName(storeId).value, r, old(secrets.values.Keys), secrets.values.Keys, old(sent), sent)
    {
      var keyName := StoreKeySecretName(storeId);
      if keyName.None? {
        r := Err(MissingCredential);
      } else {
        r := WriteOnce(storeId, keyName.value, sku, quantityUnits);
      }
    }
  }

  /** One order was sent. */
  ghost predicate PostSent(before: seq<Request>, after: seq<Request>, storeId: string, sku: string,
      quantityUnits: int)
  {
    && |after| == |before| + 1 && before <= after
    && after[|before|].Post? && after[|before|].storeId == storeId
    && after[|before|].sku == sku && after[|before|].quantityUnits == quantityUnits
  }

  /** One order was sent and its answer judged, or nothing was sent. */
  ghost predicate PostedOnce(before: seq<Request>, after: seq<Request>, storeId: string, sku: string,
      quantityUnits: int, answers: nat -> HttpReply, r: Result<Body, ClientError>)
  {
    if after == before then r == Err(MissingCredential) || r == Err(Undecoded)
    else
      && PostSent(before, after, storeId, sku, quantityUnits)
      && (r == PostVerdict(ReplyTo(answers, |before|)) || r == Err(Undecoded))
  }

  lemma PostedIs(before: seq<Request>, after: seq<Request>, storeId: string, sku: string, quantityUnits: int,
      answers: nat -> HttpReply, r: Result<Body, ClientError>)
    requires PostSent(before, after, storeId, sku, quantityUnits)
    requires r == PostVerdict(ReplyTo(answers, |before|)) || r == Err(Undecoded)
    ensures PostedOnce(before, after, storeId, sku, quantityUnits, answers, r) && after != before
  {
  }

  /** What an answer means for the one write. */
  function PostVerdict(reply: HttpReply): (r: Result<Body, ClientError>)
    ensures r.Err? ==> !r.error.MissingCredential? && !r.error.Undecoded?
  {
    if reply.Unanswered? || reply.status >= 400 then Err(Upstream)
    else if reply.body.None? then Err(Malformed)
    else Ok(reply.body.value)
  }

  /** One read was sent and rejected, and its key read again is another one. */
  ghost predicate Changed(before: seq<Request>, after: seq<Request>, storeId: string, target: Target,
      answers: nat -> HttpReply, compared: Option<string>)
  {
    && |after| == |before| + 1 && SentOne(before, after, storeId, target)
    && Rejected(ReplyTo(answers, |before|)) && compared.Some? && compared.value != after[|before|].key
  }

  /** What the last answer means, if anything was sent. */
  ghost predicate Judged(before: nat, after: nat, answers: nat -> HttpReply, r: Result<Body, ClientError>) {
    if after <= before then r == Err(MissingCredential) || r == Err(Undecoded)
    else (r.Err? && r.error.Undecoded?) || Means(ReplyTo(answers, after - 1), r)
  }

  /** What a read's result says about its answer, and the other way round. */
  predicate Means(reply: HttpReply, r: Result<Body, ClientError>) {
    && (r.Ok? <==> reply.Answered? && reply.status < 400 && reply.body.Some?)
    && (r.Ok? ==> r.value == reply.body.value)
    && (r.Err? && r.error.UnknownEntity? <==> reply.Answered? && reply.status == 404)
    && (r.Err? && r.error.Malformed? <==> reply.Answered? && reply.status < 400 && reply.body.None?)
    && !(r.Err? && r.error.MissingCredential?)
  }

  /** A second read follows a first one answered 401 exactly when the key had changed. */
  ghost predicate RetriesOnChange(before: seq<Request>, after: seq<Request>, answers: nat -> HttpReply,
      r: Result<Body, ClientError>, compared: Option<string>)
  {
    && (|after| == |before| + 2 ==>
          && ReplyTo(answers, |before|).Answered? && ReplyTo(answers, |before|).status == 401
          && compared.Some? && compared.value != after[|before|].key)
    && (|after| > |before| && Rejected(ReplyTo(answers, |before|)) && r != Err(Undecoded) ==>
          compared.Some? && (|after| == |before| + 2 <==> compared.value != after[|before|].key))
  }

  /**
   * A second read was sent only if the file changed during the call. Its key had
   * been read back as `compared` one step after the first request, and it carries
   * that key if the file held still from that step to the second request.
   */
  ghost predicate SecondIsAnother(before: seq<Request>, after: seq<Request>, file: FileHistory,
      compared: Option<string>, start: nat, end: nat)
  {
    |after| == |before| + 2 ==>
      && !Steady(file, start, end)
      && compared.Some? && ValueIn(At(file, after[|before|].at + 1)) == Some(compared.value)
      && (Steady(file, after[|before|].at + 1, after[|before| + 1].at) ==> after[|before| + 1].key == compared.value)
  }

  /** The key read back one step after `at` was the file's, and is held if the file has been steady since. */
  ghost predicate ReadLast(held: Option<Held>, compared: string, file: FileHistory, at: nat, tick: nat) {
    && at < tick && held.Some? && ValueIn(At(file, at + 1)) == Some(compared)
    && (Steady(file, at + 1, tick) ==> held.value.value == compared)
  }

  /** A key that reading again has changed. */
  lemma ReadLastStill(before: Option<Held>, held: Option<Held>, later: Option<Held>, file: FileHistory, a: nat, b: nat,
      c: nat)
    requires a < b <= c && Keeps(before, held, file, a, b) && Keeps(held, later, file, b, c)
    requires ChangesTo(before, held, file, a)
    requires before.Some? && held.Some? && before.value.value != held.value.value
    ensures ReadLast(later, held.value.value, file, a, c) && Rotates(before, file, a, c)
  {
    if Steady(file, a, c) {
      SteadyParts(file, a, b, c);
    }
    if Steady(file, a + 1, c) {
      SteadyParts(file, a + 1, b, c);
    }
  }

  /** A settled key can only have changed if the file was not steady. */
  ghost predicate Rotates(held: Option<Held>, file: FileHistory, a: nat, b: nat) {
    Settled(held, At(file, a)) ==> !Steady(file, a, b)
  }

  lemma RotatedIsUnsteady(held: Option<Held>, file: FileHistory, a: nat, b: nat, c: nat)
    requires a <= b <= c && Rotates(held, file, b, c)
    requires Steady(file, a, b) ==> Settled(held, At(file, a))
    ensures !Steady(file, a, c)
  {
    if Steady(file, a, c) {
      SteadyParts(file, a, b, c);
    }
  }

  lemma OneRead(before: seq<Request>, after: seq<Request>, storeId: string, target: Target,
      answers: nat -> HttpReply, r: Result<Body, ClientError>, rotated: bool, compared: string)
    requires SentOne(before, after, storeId, target) && JudgedOne(before, after, answers, r, rotated, compared)
    ensures rotated ==> Changed(before, after, storeId, target, answers, Some(compared))
    ensures !rotated ==> Judged(|before|, |after|, answers, r)
    ensures !rotated ==> RetriesOnChange(before, after, answers, r, Some(compared))
  {
  }

  lemma TwoReads(first: seq<Request>, before: seq<Request>, after: seq<Request>, storeId: string, target: Target,
      answers: nat -> HttpReply, compared: Option<string>, r: Result<Body, ClientError>, rotated: bool, again: string)
    requires Changed(first, before, storeId, target, answers, compared)
    requires SentOne(before, after, storeId, target) && JudgedOne(before, after, answers, r, rotated, again)
    requires r != Err(MissingCredential)
    ensures first <= after && |after| <= |first| + 2 && Reads(first, after, storeId, target)
    ensures Judged(|first|, |after|, answers, r) && RetriesOnChange(first, after, answers, r, compared)
  {
    assert forall i | 0 <= i < |before| :: after[i] == before[i];
  }

  lemma CompareSecond(held: Option<Held>, tick: nat, first: seq<Request>, before: seq<Request>, after: seq<Request>,
      file: FileHistory, compared: string, at: nat, start: nat, end: nat)
    requires |before| == |first| + 1 && |after| <= |before| + 1 && before <= after && start <= tick <= end
    requires SendsHeld(held, tick, before, after, file) && ReadLast(held, compared, file, at, tick)
    requires at == before[|first|].at && !Steady(file, start, tick)
    ensures SecondIsAnother(first, after, file, Some(compared), start, end)
  {
    if |after| == |first| + 2 {
      var second := after[|before|].at;
      assert Steady(file, start, end) ==> Steady(file, start, tick);
      assert after[|first|] == before[|first|];
      if Steady(file, at + 1, second) {
        SteadyParts(file, at + 1, tick, second);
      }
    }
  }

  /** At most one read has been sent. */
  ghost predicate SentOne(before: seq<Request>, after: seq<Request>, storeId: string, target: Target) {
    before <= after && |after| <= |before| + 1 && Reads(before, after, storeId, target)
  }

  lemma SentIs(before: seq<Request>, after: seq<Request>, storeId: string, target: Target)
    requires after == before || (|after| == |before| + 1 && before <= after && after[|before|].Get?
                                 && after[|before|].storeId == storeId && after[|before|].target == target)
    ensures SentOne(before, after, storeId, target)
  {
  }

  /** All requests sent since are reads of this target with this store's key. */
  ghost predicate Reads(before: seq<Request>, after: seq<Request>, storeId: string, target: Target) {
    forall i | |before| <= i < |after| :: after[i].Get? && after[i].storeId == storeId && after[i].target == target
  }

  ghost predicate JudgedOne(before: seq<Request>, after: seq<Request>, answers: nat -> HttpReply,
      r: Result<Body, ClientError>, rotated: bool, compared: string)
  {
    if |after| <= |before| then (r == Err(MissingCredential) || r == Err(Undecoded)) && !rotated
    else
      && (r == Verdict(ReplyTo(answers, |before|)) || r == Err(Undecoded))
      && (rotated ==> Rejected(ReplyTo(answers, |before|)) && r == Err(Upstream))
      && (Rejected(ReplyTo(answers, |before|)) && r != Err(Undecoded) ==>
            (rotated <==> compared != after[|before|].key))
  }

  lemma JudgedRejection(before: seq<Request>, after: seq<Request>, answers: nat -> HttpReply,
      r: Result<Body, ClientError>, rotated: bool, compared: string, key: string)
    requires |after| == |before| + 1 && after[|before|].key == key && Rejected(ReplyTo(answers, |before|))
    requires r == Err(Upstream) || (r == Err(Undecoded) && !rotated)
    requires r == Err(Upstream) ==> (rotated <==> compared != key)
    ensures JudgedOne(before, after, answers, r, rotated, compared)
  {
  }

  lemma HeldIsSent(held: Option<Held>, later: Option<Held>, tick: nat, before: seq<Request>, request: Request,
      file: FileHistory)
    requires tick <= request.at && Keeps(held, later, file, tick, request.at)
    requires later.Some? && request.key == later.value.value
    ensures SendsHeld(held, tick, before, before + [request], file)
  {
  }

  /** What was held and in the file is what is sent, if the file is steady until then. */
  ghost predicate SendsHeld(held: Option<Held>, tick: nat, before: seq<Request>, after: seq<Request>,
      file: FileHistory)
  {
    |after| > |before| ==>
      && tick <= after[|before|].at
      && (Pinned(held, file, tick) && Steady(file, tick, after[|before|].at) ==>
            after[|before|].key == held.value.value)
  }
}
