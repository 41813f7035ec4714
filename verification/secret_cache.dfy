/** The provider's fields together, and what they say about each secret. */
module SecretCache {
  import opened Text
  import opened SecretCell

  function FileOf(files: string -> FileHistory, name: string): FileHistory {
    files(name)
  }

  /** The provider's dictionaries, its degraded set and the names it has warned about. */
  datatype Cache = Cache(
    values: map<string, string>, identities: map<string, FileIdentity>, loadedAt: map<string, nat>,
    rotations: map<string, nat>, degraded: set<string>, warned: seq<string>)
  {
    /** The dictionaries agree on which secrets are held. */
    predicate Shaped() {
      values.Keys == identities.Keys == loadedAt.Keys && rotations.Keys <= values.Keys
    }

    function HeldOf(name: string): Option<Held> {
      if name in values && name in identities && name in loadedAt
      then Some(Held(values[name], identities[name], loadedAt[name])) else None
    }

    function CellOf(name: string): Cell {
      Cell(HeldOf(name), if name in rotations then rotations[name] else 0, name in degraded, multiset(warned)[name])
    }

    function MarkDegraded(name: string): Cache {
      this.(degraded := degraded + {name}, warned := warned + (if name in degraded then [] else [name]))
    }

    function Settle(name: string): Cache {
      this.(degraded := degraded - {name})
    }

    function Load(name: string, value: string, identity: FileIdentity, now: nat): Cache {
      this.(
        values := values[name := value], identities := identities[name := identity],
        loadedAt := loadedAt[name := now], degraded := degraded - {name},
        rotations := if name in values && values[name] != value
          then rotations[name := (if name in rotations then rotations[name] else 0) + 1] else rotations)
    }

    /** How a refresh that read the file at `now` leaves the fields. */
    function After(name: string, access: Access, identity: FileIdentity, now: nat): Cache {
      match access
      case Failed => MarkDegraded(name)
      case Kept => Settle(name)
      case Crashed => this
      case Loaded(value) => Load(name, value, identity, now)
    }

    function Refresh(name: string, file: FileHistory, tick: nat): Cache {
      After(name, AccessAt(HeldOf(name), file, tick), SeenIdentity(At(file, tick)), tick + 1)
    }
  }

  const EMPTY_CACHE := Cache(map[], map[], map[], map[], {}, [])

  /** The caches agree on every secret but one. */
  ghost predicate SameElsewhere(a: Cache, b: Cache, name: string) {
    forall other: string | other != name :: a.CellOf(other) == b.CellOf(other)
  }

  lemma MarkedCell(c: Cache, name: string)
    requires c.Shaped()
    ensures c.MarkDegraded(name).Shaped() && SameElsewhere(c.MarkDegraded(name), c, name)
    ensures c.MarkDegraded(name).CellOf(name)
      == c.CellOf(name).(degraded := true, warnings := c.CellOf(name).warnings + if name in c.degraded then 0 else 1)
  {
  }

  lemma LoadedOneCell(c: Cache, name: string, value: string, identity: FileIdentity, now: nat)
    requires c.Shaped()
    ensures c.Load(name, value, identity, now).Shaped()
    ensures SameElsewhere(c.Load(name, value, identity, now), c, name)
    ensures c.Load(name, value, identity, now).CellOf(name) == LoadedCell(c.CellOf(name), value, identity, now)
  {
  }

  /** A refresh treats the secret it names as a cell and touches no other. */
  lemma RefreshOneCell(c: Cache, name: string, file: FileHistory, tick: nat)
    requires c.Shaped()
    ensures c.Refresh(name, file, tick).Shaped() && SameElsewhere(c.Refresh(name, file, tick), c, name)
    ensures c.Refresh(name, file, tick).CellOf(name) == Refreshed(c.CellOf(name), file, tick)
  {
    match AccessAt(c.HeldOf(name), file, tick) {
      case Failed => MarkedCell(c, name);
      case Kept =>
      case Crashed =>
      case Loaded(value) => LoadedOneCell(c, name, value, SeenIdentity(At(file, tick)), tick + 1);
    }
  }

  /** No refresh loses what is held. */
  lemma RefreshLosesNothing(c: Cache, name: string, access: Access, identity: FileIdentity, now: nat)
    ensures c.values.Keys <= c.After(name, access, identity, now).values.Keys
  {
  }

  /** A snapshot of one secret. */
  datatype SecretState = SecretState(
    name: string, available: bool, degraded: bool, loadedAt: Option<nat>, rotations: nat)

  function SnapshotIn(c: Cache, name: string): SecretState {
    SecretState(name, name in c.values, name in c.degraded, if name in c.loadedAt then Some(c.loadedAt[name]) else None,
                if name in c.rotations then c.rotations[name] else 0)
  }

  /** What the fields say about a secret is what its cell says, and its flag is how its latest access ended. */
  lemma SnapshotOfCell(c: Cache, name: string, cell: Cell, file: FileHistory, tick: nat)
    requires c.Shaped() && c.CellOf(name) == Refreshed(cell, file, tick)
    ensures !AccessAt(cell.held, file, tick).Crashed? ==>
      var after := c.CellOf(name);
      SnapshotIn(c, name) == SecretState(name, after.held.Some?, AccessAt(cell.held, file, tick).Failed?,
        if after.held.Some? then Some(after.held.value.loadedAt) else None, after.rotations)
  {
  }

  /* --------------------------------------------------------------- history */

  function PastOf(past: map<string, seq<nat>>, name: string): seq<nat> {
    if name in past then past[name] else []
  }

  ghost predicate ReplaysTo(cell: Cell, file: FileHistory, past: seq<nat>, tick: nat) {
    && cell == Replay(file, past)
    && Ordered(past)
    && (past != [] ==> past[|past| - 1] < tick)
    && (cell.held.Some? ==> cell.held.value.loadedAt < tick && ReadFrom(file, cell.held.value))
  }

  /** Every secret is what its refreshes so far have made of its file's history. */
  ghost predicate Tracks(c: Cache, files: string -> FileHistory, past: map<string, seq<nat>>, tick: nat) {
    forall name: string {:trigger PastOf(past, name)} ::
      ReplaysTo(c.CellOf(name), FileOf(files, name), PastOf(past, name), tick)
  }

  lemma EmptyTracks(files: string -> FileHistory)
    ensures Tracks(EMPTY_CACHE, files, map[], 0)
  {
  }

  lemma OrderedOneMore(past: seq<nat>, tick: nat)
    requires Ordered(past) && (past != [] ==> past[|past| - 1] < tick)
    ensures Ordered(past + [tick]) && (past + [tick])[|past|] == tick
  {
  }

  lemma ReplayOn(cell: Cell, file: FileHistory, past: seq<nat>, tick: nat, later: nat, noted: seq<nat>)
    requires ReplaysTo(cell, file, past, tick) && noted == past + [tick]
    requires tick < later && (AccessAt(cell.held, file, tick).Loaded? ==> tick + 1 < later)
    ensures ReplaysTo(Refreshed(cell, file, tick), file, noted, later)
  {
    ReplayOneMore(file, past, tick);
    OrderedOneMore(past, tick);
    HeldAfter(cell, file, tick);
  }

  lemma ReplaysLater(cell: Cell, file: FileHistory, past: seq<nat>, tick: nat, later: nat)
    requires ReplaysTo(cell, file, past, tick) && tick <= later
    ensures ReplaysTo(cell, file, past, later)
  {
  }

  lemma RefreshTracks(c: Cache, files: string -> FileHistory, past: map<string, seq<nat>>, name: string, tick: nat,
      later: nat)
    requires c.Shaped() && Tracks(c, files, past, tick)
    requires tick < later && (AccessAt(c.HeldOf(name), FileOf(files, name), tick).Loaded? ==> tick + 1 < later)
    ensures Tracks(c.Refresh(name, FileOf(files, name), tick), files, past[name := PastOf(past, name) + [tick]], later)
  {
    var file, after := FileOf(files, name), c.Refresh(name, FileOf(files, name), tick);
    var noted := past[name := PastOf(past, name) + [tick]];
    RefreshOneCell(c, name, file, tick);
    ReplayOn(c.CellOf(name), file, PastOf(past, name), tick, later, PastOf(noted, name));
    forall other: string
      ensures ReplaysTo(after.CellOf(other), FileOf(files, other), PastOf(noted, other), later)
    {
      if other != name {
        OtherReplays(c, after, files, past, noted, name, other, tick, later);
      }
    }
  }

  lemma OtherReplays(c: Cache, after: Cache, files: string -> FileHistory, past: map<string, seq<nat>>,
      noted: map<string, seq<nat>>, name: string, other: string, tick: nat, later: nat)
    requires Tracks(c, files, past, tick) && tick <= later && SameElsewhere(after, c, name) && other != name
    requires noted.Keys == past.Keys + {name} && forall k | k in past && k != name :: noted[k] == past[k]
    ensures ReplaysTo(after.CellOf(other), FileOf(files, other), PastOf(noted, other), later)
  {
    assert PastOf(noted, other) == PastOf(past, other);
    ReplaysLater(c.CellOf(other), FileOf(files, other), PastOf(past, other), tick, later);
  }

  /** What the fields of a provider say about a secret, against the file's history. */
  lemma FieldsMean(c: Cache, files: string -> FileHistory, past: map<string, seq<nat>>, tick: nat, name: string)
    requires Tracks(c, files, past, tick)
    ensures
      var file, ticks, cell := FileOf(files, name), PastOf(past, name), c.CellOf(name);
      var accesses := Accesses(file, ticks);
      && cell.rotations == Changes(LoadedValues(accesses))
      && cell.rotations <= (if cell.held.Some? then Changes(ContentsTo(file, cell.held.value.loadedAt)) else 0)
      && (cell.degraded <==> FailedLast(accesses, |ticks|))
      && cell.warnings == |FailureRuns(accesses, |ticks|)|
      && (cell.held.Some? ==> ReadFrom(file, cell.held.value))
  {
    var file, ticks := FileOf(files, name), PastOf(past, name);
    RotationsAreChanges(file, ticks);
    RotationsAreReal(file, ticks);
    WarningsAreRuns(file, ticks, |ticks|);
    assert ticks[..|ticks|] == ticks;
  }
}
