/** `SecretsProvider`: secrets cached from a directory of files that others rotate. */
module Secrets {
  import opened Text
  import opened Redaction
  import opened SecretCell
  import opened SecretCache

  /** The directory: each file's whole history, and the step the process is at. */
  class Mount {
    const files: string -> FileHistory
    var tick: nat

    constructor (files: string -> FileHistory)
      ensures this.files == files && tick == 0
    {
      this.files := files;
      tick := 0;
    }

    /** Look at a file; anything may happen to it until the next look. */
    method Look(name: string) returns (file: FileState)
      modifies this
      ensures file == At(FileOf(files, name), old(tick)) && tick == old(tick) + 1
    {
      file := At(FileOf(files, name), tick);
      tick := tick + 1;
    }
  }

  class SecretsProvider {
    const mount: Mount
    const registry: SecretRegistry
    var values: map<string, string>
    var identities: map<string, FileIdentity>
    var loadedAt: map<string, nat>
    var rotations: map<string, nat>
    var degraded: set<string>
    var warned: seq<string>
    /** When each secret was refreshed. */
    ghost var past: map<string, seq<nat>>

    ghost function Fields(): Cache
      reads this
    {
      Cache(values, identities, loadedAt, rotations, degraded, warned)
    }

    /** The log scrubber knows every held value long enough to be scrubbed. */
    ghost predicate Registered()
      reads this, registry
    {
      && registry.Valid()
      && forall name | name in values && |values[name]| >= MIN_REDACTABLE_LENGTH :: values[name] in registry.values
    }

    ghost predicate Valid()
      reads this, mount, registry
    {
      Fields().Shaped() && Registered() && Tracks(Fields(), mount.files, past, mount.tick)
    }

    constructor (files: string -> FileHistory)
      ensures Valid() && fresh(mount) && fresh(registry)
      ensures mount.files == files && Fields() == EMPTY_CACHE && past == map[]
    {
      mount := new Mount(files);
      registry := new SecretRegistry();
      values, identities, loadedAt, rotations, degraded := map[], map[], map[], map[], {};
      warned := [];
      past := map[];
      new;
      EmptyTracks(files);
    }

    method MarkDegraded(name: string)
      modifies this`degraded, this`warned
      ensures Fields() == old(Fields()).MarkDegraded(name)
    {
      var alreadyDegraded := name in degraded;
      degraded := degraded + {name};
      if alreadyDegraded {
        return;
      }
      warned := warned + [name];
    }

    /** The file has not been replaced: only whether it can still be read matters. */
    method Recheck(name: string) returns (access: Access)
      modifies mount, `degraded, `warned
      ensures access == if Readable(At(FileOf(mount.files, name), old(mount.tick))) then Kept else Failed
      ensures Fields() == if access.Kept? then old(Fields()).Settle(name) else old(Fields()).MarkDegraded(name)
      ensures mount.tick == old(mount.tick) + 1
    {
      var file := mount.Look(name);
      if Readable(file) {
        degraded := degraded - {name};
        access := Kept;
      } else {
        MarkDegraded(name);
        access := Failed;
      }
    }

    /** The file has been replaced: read it. */
    method Reread(name: string, identity: FileIdentity) returns (access: Access)
      requires Registered()
      modifies mount, registry, `values, `identities, `loadedAt, `rotations, `degraded, `warned
      ensures access == Read(At(FileOf(mount.files, name), old(mount.tick)))
      ensures Fields() == old(Fields()).After(name, access, identity, old(mount.tick))
      ensures Registered() && old(registry.values) <= registry.values
      ensures mount.tick == old(mount.tick) + 1
    {
      var file := mount.Look(name);
      if !Readable(file) {
        MarkDegraded(name);
        return Failed;
      }
      if file.content.Undecodable? {
        return Crashed;
      }
      var value := Strip(file.content.text);
      if value == "" {
        MarkDegraded(name);
        return Failed;
      }
      StripIsTrim(file.content.text);
      Load(name, value, identity);
      Register(value);
      access := Loaded(value);
    }

    method Load(name: string, value: string, identity: FileIdentity)
      requires mount.tick > 0
      modifies `values, `identities, `loadedAt, `rotations, `degraded
      ensures Fields() == old(Fields()).Load(name, value, identity, mount.tick - 1)
    {
      var hadPrevious := name in values;
      var changed := !hadPrevious || values[name] != value;
      values := values[name := value];
      identities := identities[name := identity];
      loadedAt := loadedAt[name := mount.tick - 1];
      degraded := degraded - {name};
      if hadPrevious && changed {
        rotations := rotations[name := (if name in rotations then rotations[name] else 0) + 1];
      }
    }

    method Register(value: string)
      requires registry.Valid() && Stripped(value)
      modifies registry
      ensures registry.Valid() && old(registry.values) <= registry.values
      ensures |value| >= MIN_REDACTABLE_LENGTH ==> value in registry.values
    {
      StripOfStripped(value);
      registry.Register(Some(value));
    }

    /** `_refresh`; reading content that is not UTF-8 raises out of it and changes nothing. */
    method Refresh(name: string) returns (access: Access)
      requires Fields().Shaped() && Registered()
      modifies mount, registry, `values, `identities, `loadedAt, `rotations, `degraded, `warned
      ensures access == AccessAt(old(Fields()).HeldOf(name), FileOf(mount.files, name), old(mount.tick))
      ensures Fields() == old(Fields()).After(
                  name, access, SeenIdentity(At(FileOf(mount.files, name), old(mount.tick))), old(mount.tick) + 1)
      ensures Registered() && old(registry.values) <= registry.values
      ensures old(mount.tick) < mount.tick <= old(mount.tick) + 2
      ensures access.Loaded? ==> mount.tick == old(mount.tick) + 2
      ensures access.Failed? <==> Troubled(old(Fields()).HeldOf(name), At(FileOf(mount.files, name), old(mount.tick)),
                                           At(FileOf(mount.files, name), old(mount.tick) + 1))
    {
      FailedIff(Fields().HeldOf(name), FileOf(mount.files, name), mount.tick);
      var seen := mount.Look(name);
      if seen.Absent? {
        MarkDegraded(name);
        return Failed;
      }
      if name in identities && identities[name] == seen.identity {
        access := Recheck(name);
        return;
      }
      access := Reread(name, seen.identity);
    }

    /** One refresh, noted in the history that says what the fields mean. */
    method Access(name: string) returns (access: Access)
      requires Valid()
      modifies this, mount, registry
      ensures Valid() && Accessed(name, access, old(Fields()), old(mount.tick), Fields(), mount.tick)
      ensures past == old(past)[name := PastOf(old(past), name) + [old(mount.tick)]]
      ensures old(registry.values) <= registry.values && old(values.Keys) <= values.Keys
    {
      access := Refresh(name);
      RefreshLosesNothing(old(Fields()), name, access, SeenIdentity(At(FileOf(mount.files, name), old(mount.tick))),
                          old(mount.tick) + 1);
      past := past[name := PastOf(past, name) + [old(mount.tick)]];
      RefreshTracks(old(Fields()), mount.files, old(past), name, old(mount.tick), mount.tick);
      RefreshOneCell(old(Fields()), name, FileOf(mount.files, name), old(mount.tick));
    }

    /** What one access does to its own secret and to all others. */
    ghost predicate Accessed(name: string, access: Access, before: Cache, tick: nat, after: Cache, later: nat) {
      && access == AccessAt(before.HeldOf(name), FileOf(mount.files, name), tick)
      && after.CellOf(name) == Refreshed(before.CellOf(name), FileOf(mount.files, name), tick)
      && SameElsewhere(after, before, name)
      && tick < later <= tick + 2
    }

    /**
     * The current value of a secret. It was at some time the file's content; it
     * is the file's content now if the file can be read and holds still; and a
     * secret once held never becomes unavailable.
     */
    method Get(name: string) returns (r: Result<string, SecretError>, ghost access: Access)
      requires Valid()
      modifies this, mount, registry
      ensures Valid() && Accessed(name, access, old(Fields()), old(mount.tick), Fields(), mount.tick)
      ensures r == Served(access, Fields().HeldOf(name))
      ensures access.Crashed? <==> r.Err? && r.error.NotUtf8?
      ensures r.Err? && r.error.Unavailable? <==> !access.Crashed? && name !in values
      ensures r.Ok? ==> name in values && r.value == values[name]
      ensures r.Ok? ==> WasContent(FileOf(mount.files, name), r.value, mount.tick)
      ensures NeverFools(FileOf(mount.files, name)) && Undisturbed(FileOf(mount.files, name), old(mount.tick))
        ==> r.Ok? && Some(r.value) == ValueIn(At(FileOf(mount.files, name), old(mount.tick)))
      ensures old(Fields()).HeldOf(name).Some? ==> r != Err(Unavailable)
      ensures r.Ok? && |r.value| >= MIN_REDACTABLE_LENGTH ==> r.value in registry.values
      ensures old(registry.values) <= registry.values && old(values.Keys) <= values.Keys
    {
      ghost var cell, file, tick := Fields().CellOf(name), FileOf(mount.files, name), mount.tick;
      assert ReplaysTo(cell, file, PastOf(past, name), tick);
      var result := Access(name);
      access := result;
      if result.Crashed? {
        r := Err(NotUtf8);
      } else if name in values {
        r := Ok(values[name]);
      } else {
        r := Err(Unavailable);
      }
      assert ReplaysTo(Fields().CellOf(name), file, PastOf(past, name), mount.tick);
      ServedIsContent(cell, file, tick, mount.tick);
    }

    method State(name: string) returns (r: Result<SecretState, SecretError>, ghost access: Access)
      requires Valid()
      modifies this, mount, registry
      ensures Valid() && Accessed(name, access, old(Fields()), old(mount.tick), Fields(), mount.tick)
      ensures access.Crashed? ==> r == Err(NotUtf8)
      ensures r.Ok? ==> (r.value.degraded <==>
                           Troubled(old(Fields()).HeldOf(name), At(FileOf(mount.files, name), old(mount.tick)),
                                    At(FileOf(mount.files, name), old(mount.tick) + 1)))
      ensures !access.Crashed? ==>
        var cell := Fields().CellOf(name);
        r == Ok(SecretState(name, cell.held.Some?, access.Failed?,
                            if cell.held.Some? then Some(cell.held.value.loadedAt) else None, cell.rotations))
      ensures old(registry.values) <= registry.values && old(values.Keys) <= values.Keys
    {
      ghost var cell, file, tick := Fields().CellOf(name), FileOf(mount.files, name), mount.tick;
      FailedIff(cell.held, file, tick);
      var result := Access(name);
      access := result;
      SnapshotOfCell(Fields(), name, cell, file, tick);
      if result.Crashed? {
        r := Err(NotUtf8);
      } else {
        r := Ok(SecretState(
          name, name in values, name in degraded, if name in loadedAt then Some(loadedAt[name]) else None,
          if name in rotations then rotations[name] else 0));
      }
    }
  }
}
