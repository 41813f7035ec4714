/** Readiness over the required secrets, which never regresses once they have loaded. */
module Health {
  import opened Text
  import opened SecretCell
  import opened SecretCache
  import opened Secrets

  datatype ProbeStatus = ProbeOk | ProbeDegraded | ProbeFailed

  datatype ReadinessStatus = NotReady | Degraded | Ready

  /** A secret probe: a value held is enough to be ready, and a probe that raises has failed. */
  function ProbeOf(state: Result<SecretState, SecretError>): ProbeStatus {
    if state.Err? || !state.value.available then ProbeFailed
    else if state.value.degraded then ProbeDegraded
    else ProbeOk
  }

  /** The same, in terms of what the access did and whether a value is held. */
  function ProbeAfter(access: Access, held: bool): ProbeStatus {
    if access.Crashed? || !held then ProbeFailed else if access.Failed? then ProbeDegraded else ProbeOk
  }

  predicate AllReady(results: seq<ProbeStatus>) {
    forall i | 0 <= i < |results| :: !results[i].ProbeFailed?
  }

  predicate AnyDegraded(results: seq<ProbeStatus>) {
    exists i | 0 <= i < |results| :: results[i].ProbeDegraded?
  }

  function StatusOf(results: seq<ProbeStatus>): ReadinessStatus {
    if !AllReady(results) then NotReady else if AnyDegraded(results) then Degraded else Ready
  }

  class HealthRegistry {
    const secrets: SecretsProvider
    /** The secrets probed, in the order of registration. */
    var probes: seq<string>

    ghost predicate Valid()
      reads this, secrets, secrets.mount, secrets.registry
    {
      secrets.Valid() && forall i, j | 0 <= i < j < |probes| :: probes[i] != probes[j]
    }

    constructor (secrets: SecretsProvider)
      requires secrets.Valid()
      ensures Valid() && this.secrets == secrets && probes == []
    {
      this.secrets, probes := secrets, [];
    }

    /** Registering a name again replaces its probe by an equal one in the same place. */
    method Register(name: string)
      requires Valid()
      modifies `probes
      ensures Valid() && probes == if name in old(probes) then old(probes) else old(probes) + [name]
    {
      if name !in probes {
        probes := probes + [name];
      }
    }

    method Probe(name: string) returns (status: ProbeStatus, ghost access: Access)
      requires secrets.Valid()
      modifies secrets, secrets.mount, secrets.registry
      ensures secrets.Valid() && old(secrets.mount.tick) <= secrets.mount.tick
      ensures old(secrets.values.Keys) <= secrets.values.Keys
      ensures status == ProbeAfter(access, name in secrets.values)
      ensures Decodes(FileOf(secrets.mount.files, name)) ==> !access.Crashed?
      ensures ProbesFile(FileOf(secrets.mount.files, name), old(secrets.mount.tick), secrets.mount.tick, access, status)
    {
      ghost var cell := secrets.Fields().CellOf(name);
      ghost var file, tick := FileOf(secrets.mount.files, name), secrets.mount.tick;
      var state;
      state, access := secrets.State(name);
      assert access.Crashed? ==> At(file, tick + 1).Present? && At(file, tick + 1).content.Undecodable?;
      AccessOverTime(cell, file, tick, secrets.mount.tick);
      HeldIffValue(secrets.Fields(), name);
      status := ProbeOf(state);
    }

    /** Run every probe. */
    method RunProbes() returns (results: seq<ProbeStatus>, ghost accesses: seq<Access>)
      requires Valid()
      modifies secrets, secrets.mount, secrets.registry
      ensures Valid() && old(secrets.mount.tick) <= secrets.mount.tick && |results| == |accesses| == |probes|
      ensures old(secrets.values.Keys) <= secrets.values.Keys && NoneCrashed(secrets.mount.files, probes, accesses)
      ensures ProbedAs(old(secrets.values.Keys), probes, results, accesses)
      ensures AllReady(results) ==> AllHeld(secrets.values.Keys, probes)
      ensures ProbeFiles(secrets.mount.files, probes, old(secrets.mount.tick), secrets.mount.tick, accesses, results)
    {
      results, accesses := [], [];
      ghost var start, files, begun := secrets.values.Keys, secrets.mount.files, secrets.mount.tick;
      for n := 0 to |probes|
        invariant Valid() && old(secrets.mount.tick) <= secrets.mount.tick && |results| == |accesses| == n
        invariant start <= secrets.values.Keys && NoneCrashed(files, probes, accesses)
        invariant ProbeFiles(files, probes, begun, secrets.mount.tick, accesses, results)
        invariant ProbedAs(start, probes, results, accesses) && HeldIfReady(secrets.values.Keys, probes, results)
      {
        ghost var before, tick := secrets.values.Keys, secrets.mount.tick;
        var probed;
        ghost var access;
        probed, access := Probe(probes[n]);
        OneMoreProbe(start, before, secrets.values.Keys, files, probes, results, accesses, probed, access);
        OneMoreFile(files, probes, begun, tick, secrets.mount.tick, accesses, results, access, probed);
        results, accesses := results + [probed], accesses + [access];
      }
    }

    /**
     * Once all required secrets have loaded, the service is ready unless reading
     * one of them raises, which content that decodes never does, and degraded
     * exactly when some latest access failed, as it does for a file that cannot be
     * read meanwhile. Whatever was held, files that can be read make it ready.
     */
    method Readiness() returns (status: ReadinessStatus, ready: bool, results: seq<ProbeStatus>,
        ghost accesses: seq<Access>)
      requires Valid()
      modifies secrets, secrets.mount, secrets.registry
      ensures Valid() && old(secrets.mount.tick) <= secrets.mount.tick && |results| == |accesses| == |probes|
      ensures status == StatusOf(results) && (ready <==> AllReady(results))
      ensures old(secrets.values.Keys) <= secrets.values.Keys && (ready ==> AllHeld(secrets.values.Keys, probes))
      ensures AllHeld(old(secrets.values.Keys), probes) ==>
          && (ready <==> forall i | 0 <= i < |probes| :: !accesses[i].Crashed?)
          && (AllDecode(secrets.mount.files, probes) ==> ready)
          && (status.Degraded? <==> ready && exists i | 0 <= i < |probes| :: accesses[i].Failed?)
      ensures status.NotReady? <==> !ready
      ensures AllHeld(old(secrets.values.Keys), probes) && ready
        && (exists i | 0 <= i < |probes| ::
              UnreadableFrom(FileOf(secrets.mount.files, probes[i]), old(secrets.mount.tick), secrets.mount.tick))
        ==> status.Degraded?
      ensures (forall i | 0 <= i < |probes| ::
                 ServiceableFrom(FileOf(secrets.mount.files, probes[i]), old(secrets.mount.tick), secrets.mount.tick))
        ==> status.Ready?
    {
      ghost var start := secrets.values.Keys;
      results, accesses := RunProbes();
      ready := AllReady(results);
      status := if !ready then NotReady else if AnyDegraded(results) then Degraded else Ready;
      if AllHeld(start, probes) {
        StatusFromAccesses(results, accesses);
        DecodedIsReady(secrets.mount.files, probes, accesses);
      }
    }
  }

  /** How a probe ended, from what its file was while it ran. */
  ghost predicate ProbesFile(file: FileHistory, a: nat, b: nat, access: Access, status: ProbeStatus) {
    && (UnreadableFrom(file, a, b) ==> access.Failed?)
    && (ServiceableFrom(file, a, b) ==> status.ProbeOk?)
  }

  ghost predicate ProbeFiles(files: string -> FileHistory, names: seq<string>, a: nat, b: nat, accesses: seq<Access>,
      results: seq<ProbeStatus>)
  {
    && |results| == |accesses| <= |names|
    && forall i | 0 <= i < |accesses| :: ProbesFile(FileOf(files, names[i]), a, b, accesses[i], results[i])
  }

  lemma OneMoreFile(files: string -> FileHistory, names: seq<string>, a: nat, b: nat, c: nat, accesses: seq<Access>,
      results: seq<ProbeStatus>, access: Access, status: ProbeStatus)
    requires a <= b <= c && |accesses| < |names| && ProbeFiles(files, names, a, b, accesses, results)
    requires ProbesFile(FileOf(files, names[|accesses|]), b, c, access, status)
    ensures ProbeFiles(files, names, a, c, accesses + [access], results + [status])
  {
    forall i | 0 <= i < |accesses|
      ensures ProbesFile(FileOf(files, names[i]), a, c, accesses[i], results[i])
    {
      LongerProbe(FileOf(files, names[i]), a, b, a, c, accesses[i], results[i]);
    }
    LongerProbe(FileOf(files, names[|accesses|]), b, c, a, c, access, status);
  }

  lemma LongerProbe(file: FileHistory, a: nat, b: nat, c: nat, d: nat, access: Access, status: ProbeStatus)
    requires c <= a && b <= d && ProbesFile(file, a, b, access, status)
    ensures ProbesFile(file, c, d, access, status)
  {
  }

  lemma HeldIffValue(c: Cache, name: string)
    requires c.Shaped()
    ensures c.CellOf(name).held.Some? <==> name in c.values
  {
  }

  predicate AllHeld(held: set<string>, names: seq<string>) {
    forall i | 0 <= i < |names| :: names[i] in held
  }

  /** A secret held at the start is judged by its access alone. */
  ghost predicate ProbedAs(start: set<string>, names: seq<string>, results: seq<ProbeStatus>, accesses: seq<Access>) {
    && |results| == |accesses| <= |names|
    && forall i | 0 <= i < |results| && names[i] in start :: results[i] == ProbeAfter(accesses[i], true)
  }

  /** A probe that did not fail found a value held. */
  ghost predicate HeldIfReady(held: set<string>, names: seq<string>, results: seq<ProbeStatus>) {
    |results| <= |names| && forall i | 0 <= i < |results| && !results[i].ProbeFailed? :: names[i] in held
  }

  lemma OneMoreProbe(start: set<string>, before: set<string>, now: set<string>, files: string -> FileHistory,
      names: seq<string>, results: seq<ProbeStatus>, accesses: seq<Access>, probed: ProbeStatus, access: Access)
    requires |results| < |names| && start <= now && before <= now
    requires ProbedAs(start, names, results, accesses) && NoneCrashed(files, names, accesses)
    requires HeldIfReady(before, names, results)
    requires probed == ProbeAfter(access, names[|results|] in now)
    requires access.Crashed? ==> !Decodes(FileOf(files, names[|results|]))
    ensures ProbedAs(start, names, results + [probed], accesses + [access])
    ensures NoneCrashed(files, names, accesses + [access]) && HeldIfReady(now, names, results + [probed])
  {
  }

  ghost predicate AllDecode(files: string -> FileHistory, names: seq<string>) {
    forall i | 0 <= i < |names| :: Decodes(FileOf(files, names[i]))
  }

  /** No access so far has raised, unless its file has content that does not decode. */
  ghost predicate NoneCrashed(files: string -> FileHistory, names: seq<string>, accesses: seq<Access>) {
    |accesses| <= |names|
    && forall i | 0 <= i < |accesses| :: accesses[i].Crashed? ==> !Decodes(FileOf(files, names[i]))
  }

  lemma DecodedIsReady(files: string -> FileHistory, names: seq<string>, accesses: seq<Access>)
    requires NoneCrashed(files, names, accesses)
    ensures AllDecode(files, names) ==> forall i | 0 <= i < |accesses| :: !accesses[i].Crashed?
  {
  }

  lemma StatusFromAccesses(results: seq<ProbeStatus>, accesses: seq<Access>)
    requires |results| == |accesses|
    requires forall i | 0 <= i < |results| :: results[i] == ProbeAfter(accesses[i], true)
    ensures AllReady(results) <==> forall i | 0 <= i < |accesses| :: !accesses[i].Crashed?
    ensures AllReady(results) ==> (AnyDegraded(results) <==> exists i | 0 <= i < |accesses| :: accesses[i].Failed?)
  {
    forall i | 0 <= i < |results|
      ensures results[i].ProbeFailed? <==> accesses[i].Crashed?
      ensures results[i].ProbeDegraded? <==> accesses[i].Failed?
    {
    }
  }
}
