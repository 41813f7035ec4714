/**
 * One cached secret as a function of its file's history. A refresh looks at the
 * file twice, first its fingerprint and then its content, and the file may have
 * changed in between.
 */
module SecretCell {
  import opened Text

  /** The fingerprint that tells whether a file has been replaced. */
  datatype FileIdentity = FileIdentity(inode: nat, mtimeNs: int, size: nat)

  datatype Content = Utf8(text: string) | Undecodable

  datatype FileState = Absent | Present(identity: FileIdentity, readable: bool, content: Content)

  /** The file at every step of the process that might look at it. */
  type FileHistory = nat -> FileState

  function At(file: FileHistory, t: nat): FileState {
    file(t)
  }

  datatype Held = Held(value: string, identity: FileIdentity, loadedAt: nat)

  datatype Cell = Cell(held: Option<Held>, rotations: nat, degraded: bool, warnings: nat)

  const EMPTY := Cell(None, 0, false, 0)

  /** How one refresh ends; content that is not UTF-8 raises out of it. */
  datatype Access = Failed | Kept | Loaded(value: string) | Crashed

  predicate Readable(file: FileState) {
    file.Present? && file.readable
  }

  function Look(held: Option<Held>, seen: FileState, read: FileState): Access {
    if seen.Absent? then Failed
    else if held.Some? && held.value.identity == seen.identity then (if Readable(read) then Kept else Failed)
    else Read(read)
  }

  /** Reading a file that has been replaced. */
  function Read(file: FileState): Access {
    if !Readable(file) then Failed
    else if file.content.Undecodable? then Crashed
    else if Strip(file.content.text) == "" then Failed
    else Loaded(Strip(file.content.text))
  }

  /** The fingerprint seen; of a file that is not there, no one asks. */
  function SeenIdentity(file: FileState): FileIdentity {
    if file.Present? then file.identity else FileIdentity(0, 0, 0)
  }

  function AccessAt(held: Option<Held>, file: FileHistory, tick: nat): Access {
    Look(held, At(file, tick), At(file, tick + 1))
  }

  function Refreshed(cell: Cell, file: FileHistory, tick: nat): Cell {
    match AccessAt(cell.held, file, tick)
    case Failed => cell.(degraded := true, warnings := cell.warnings + if cell.degraded then 0 else 1)
    case Kept => cell.(degraded := false)
    case Crashed => cell
    case Loaded(value) => LoadedCell(cell, value, SeenIdentity(At(file, tick)), tick + 1)
  }

  /** The file is there and is not the one the held value was read from. */
  predicate Replaced(held: Option<Held>, seen: FileState) {
    seen.Present? && (held.None? || held.value.identity != seen.identity)
  }

  /**
   * What the two looks of a refresh make of the flag, over the file's states: it
   * is set when the file is gone, cannot be read, or has been replaced by white
   * space, and cleared otherwise; a replaced file that is not UTF-8 raises and
   * changes nothing.
   */
  lemma DegradedIff(cell: Cell, file: FileHistory, tick: nat)
    ensures
      var seen, read, after := file(tick), file(tick + 1), Refreshed(cell, file, tick);
      var replaced := seen.Present? && (cell.held.None? || cell.held.value.identity != seen.identity);
      if replaced && read.Present? && read.readable && read.content.Undecodable? then
        AccessAt(cell.held, file, tick).Crashed? && after == cell
      else
        && !AccessAt(cell.held, file, tick).Crashed?
        && (after.degraded <==>
              seen.Absent? || read.Absent? || !read.readable || (replaced && AllSpace(read.content.text)))
  {
    if At(file, tick + 1).Present? && At(file, tick + 1).content.Utf8? {
      StripEmptyIff(At(file, tick + 1).content.text);
    }
  }

  /** A refresh that sees the file like this fails. */
  predicate Troubled(held: Option<Held>, seen: FileState, read: FileState) {
    || seen.Absent? || read.Absent? || !read.readable
    || (Replaced(held, seen) && read.content.Utf8? && AllSpace(read.content.text))
  }

  lemma FailedIff(held: Option<Held>, file: FileHistory, tick: nat)
    ensures AccessAt(held, file, tick).Failed? <==> Troubled(held, At(file, tick), At(file, tick + 1))
  {
    DegradedIff(Cell(held, 0, false, 0), file, tick);
  }

  /** From step `a` to step `b` the file cannot be read. */
  ghost predicate UnreadableFrom(file: FileHistory, a: nat, b: nat) {
    forall t | a <= t <= b :: At(file, t).Absent? || !At(file, t).readable
  }

  /** From step `a` to step `b` the file can be read, in UTF-8, and is not blank; it may well be replaced. */
  ghost predicate ServiceableFrom(file: FileHistory, a: nat, b: nat) {
    forall t | a <= t <= b ::
      && At(file, t).Present? && At(file, t).readable
      && At(file, t).content.Utf8? && !AllSpace(At(file, t).content.text)
  }

  lemma AccessOverTime(cell: Cell, file: FileHistory, tick: nat, later: nat)
    requires tick < later
    ensures UnreadableFrom(file, tick, later) ==> AccessAt(cell.held, file, tick).Failed?
    ensures ServiceableFrom(file, tick, later) ==>
      && !AccessAt(cell.held, file, tick).Failed? && !AccessAt(cell.held, file, tick).Crashed?
      && Refreshed(cell, file, tick).held.Some?
  {
    var next := tick + 1;
    assert UnreadableFrom(file, tick, later) ==> At(file, next).Absent? || !At(file, next).readable;
    assert ServiceableFrom(file, tick, later) ==> At(file, next).Present? && At(file, tick).Present?;
    DegradedIff(cell, file, tick);
    FailedIff(cell.held, file, tick);
  }

  function LoadedCell(cell: Cell, value: string, identity: FileIdentity, now: nat): Cell {
    Cell(Some(Held(value, identity, now)),
         cell.rotations + (if cell.held.Some? && cell.held.value.value != value then 1 else 0),
         false, cell.warnings)
  }

  /** The cell after refreshes at the given steps. */
  function Replay(file: FileHistory, ticks: seq<nat>): Cell {
    if ticks == [] then EMPTY else Refreshed(Replay(file, ticks[..|ticks| - 1]), file, ticks[|ticks| - 1])
  }

  ghost predicate Ordered(ticks: seq<nat>) {
    forall i, j | 0 <= i < j < |ticks| :: ticks[i] < ticks[j]
  }

  lemma ReplayOneMore(file: FileHistory, ticks: seq<nat>, tick: nat)
    ensures Replay(file, ticks + [tick]) == Refreshed(Replay(file, ticks), file, tick)
  {
    assert (ticks + [tick])[..|ticks|] == ticks;
  }

  /* ------------------------------------------------------------- coherence */

  /** The value a read of the file would give. */
  function ValueIn(file: FileState): Option<string> {
    if Readable(file) && file.content.Utf8? && Strip(file.content.text) != "" then Some(Strip(file.content.text))
    else None
  }

  /** Whatever is in the file can be decoded. */
  ghost predicate Decodes(file: FileHistory) {
    forall t :: At(file, t).Present? ==> At(file, t).content.Utf8?
  }

  /** A fingerprint seen twice means the content was the same whenever the file was there in between. */
  ghost predicate NoRecurrence(file: FileHistory) {
    forall a: nat, b: nat, c: nat
      | a <= b <= c && At(file, a).Present? && At(file, b).Present? && At(file, c).Present?
        && At(file, a).identity == At(file, c).identity
      :: At(file, b).content == At(file, c).content
  }

  /** What is held was read from the file one step after its fingerprint was taken. */
  ghost predicate ReadFrom(file: FileHistory, held: Held) {
    && held.loadedAt > 0
    && At(file, held.loadedAt - 1).Present? && At(file, held.loadedAt - 1).identity == held.identity
    && ValueIn(At(file, held.loadedAt)) == Some(held.value)
  }

  lemma HeldAfter(cell: Cell, file: FileHistory, tick: nat)
    ensures
      var held := Refreshed(cell, file, tick).held;
      held == cell.held || (held.Some? && held.value.loadedAt == tick + 1 && ReadFrom(file, held.value))
  {
  }

  /** The value was what a read of the file gave at some step before `tick`. */
  ghost predicate WasContent(file: FileHistory, value: string, tick: nat) {
    exists t: nat | t < tick :: ValueIn(At(file, t)) == Some(value)
  }

  /** Whatever is served was once the stripped content of this very file. */
  lemma {:induction false} HeldWasContent(file: FileHistory, ticks: seq<nat>)
    requires Ordered(ticks)
    ensures
      var held := Replay(file, ticks).held;
      held.Some? ==> ticks != [] && held.value.loadedAt <= ticks[|ticks| - 1] + 1 && ReadFrom(file, held.value)
  {
    if ticks != [] {
      HeldWasContent(file, ticks[..|ticks| - 1]);
    }
  }

  /** The file has a value to read and does not change between the two looks of a refresh. */
  predicate Undisturbed(file: FileHistory, tick: nat) {
    ValueIn(At(file, tick)).Some? && At(file, tick + 1) == At(file, tick)
  }

  /**
   * A refresh at step `a` would load a value under a fingerprint that the file
   * has again at step `c`, holding still with another value.
   */
  predicate Fools(file: FileHistory, a: nat, c: nat) {
    && a < c && At(file, a).Present? && Undisturbed(file, c)
    && At(file, a).identity == At(file, c).identity
    && ValueIn(At(file, a + 1)).Some? && ValueIn(At(file, a + 1)) != ValueIn(At(file, c))
  }

  ghost predicate NeverFools(file: FileHistory) {
    forall a: nat, c: nat :: !Fools(file, a, c)
  }

  /** The cell serves the file's current value and reports nothing wrong. */
  predicate Current(cell: Cell, file: FileState) {
    cell.held.Some? && Some(cell.held.value.value) == ValueIn(file) && !cell.degraded
  }

  lemma NextIsCurrent(cell: Cell, file: FileHistory, tick: nat)
    requires cell.held.Some? ==> cell.held.value.loadedAt <= tick && ReadFrom(file, cell.held.value)
    requires NeverFools(file) && Undisturbed(file, tick)
    ensures !AccessAt(cell.held, file, tick).Crashed?
    ensures Current(Refreshed(cell, file, tick), At(file, tick))
  {
    if cell.held.Some? && cell.held.value.identity == At(file, tick).identity {
      assert !Fools(file, cell.held.value.loadedAt - 1, tick);
    }
  }

  lemma RefreshIsCurrent(file: FileHistory, ticks: seq<nat>, tick: nat)
    requires NeverFools(file) && Ordered(ticks + [tick]) && Undisturbed(file, tick)
    ensures Current(Replay(file, ticks + [tick]), At(file, tick))
  {
    ReplayOneMore(file, ticks, tick);
    if ticks != [] {
      assert ticks[|ticks| - 1] == (ticks + [tick])[|ticks| - 1] < (ticks + [tick])[|ticks|];
    }
    OrderedFront(ticks, tick);
    HeldWasContent(file, ticks);
    NextIsCurrent(Replay(file, ticks), file, tick);
  }

  lemma OrderedFront(ticks: seq<nat>, tick: nat)
    requires Ordered(ticks + [tick])
    ensures Ordered(ticks)
  {
    forall i, j | 0 <= i < j < |ticks|
      ensures ticks[i] < ticks[j]
    {
      assert (ticks + [tick])[i] < (ticks + [tick])[j];
    }
  }

  /** Whatever refreshes came before, one that finds the file readable and holding still serves its current value. */
  ghost predicate Coherent(file: FileHistory) {
    forall ticks, tick: nat | Ordered(ticks + [tick]) && Undisturbed(file, tick) ::
      Current(Replay(file, ticks + [tick]), At(file, tick))
  }

  /** A single refresh at the wrong step is enough to be fooled. */
  lemma FooledOnce(file: FileHistory, a: nat, c: nat)
    requires Fools(file, a, c)
    ensures Ordered([a] + [c]) && Undisturbed(file, c) && !Current(Replay(file, [a] + [c]), At(file, c))
  {
    assert [a][..0] == [];
    ReplayOneMore(file, [], a);
    assert [] + [a] == [a];
    ReplayOneMore(file, [a], c);
  }

  /**
   * The cache serves the current value after every such refresh, a refresh caught
   * by a change between its two looks healing at the next one, exactly when the
   * file never fools it.
   */
  lemma CoherentIff(file: FileHistory)
    ensures Coherent(file) <==> NeverFools(file)
  {
    if NeverFools(file) {
      forall ticks, tick: nat | Ordered(ticks + [tick]) && Undisturbed(file, tick)
        ensures Current(Replay(file, ticks + [tick]), At(file, tick))
      {
        RefreshIsCurrent(file, ticks, tick);
      }
    } else {
      var a: nat, c: nat :| Fools(file, a, c);
      FooledOnce(file, a, c);
    }
  }

  /** Fingerprints that never recur after a change keep a file from fooling the cache. */
  lemma NoRecurrenceNeverFools(file: FileHistory)
    requires NoRecurrence(file)
    ensures NeverFools(file)
  {
    forall a: nat, c: nat
      ensures !Fools(file, a, c)
    {
      if a < c && At(file, a).Present? && At(file, a + 1).Present? && At(file, c).Present?
         && At(file, a).identity == At(file, c).identity
      {
        assert At(file, a + 1).content == At(file, c).content;
      }
    }
  }

  datatype SecretError = Unavailable | NotUtf8

  /** What `get` gives its caller after a refresh. */
  function Served(access: Access, held: Option<Held>): Result<string, SecretError> {
    if access.Crashed? then Err(NotUtf8) else if held.Some? then Ok(held.value.value) else Err(Unavailable)
  }

  /** What is served was the file's content, is its content now if the file holds still, and is never lost. */
  lemma ServedIsContent(cell: Cell, file: FileHistory, tick: nat, later: nat)
    requires cell.held.Some? ==> cell.held.value.loadedAt <= tick && ReadFrom(file, cell.held.value)
    requires var held := Refreshed(cell, file, tick).held;
      held.Some? ==> held.value.loadedAt < later && ReadFrom(file, held.value)
    ensures
      var r := Served(AccessAt(cell.held, file, tick), Refreshed(cell, file, tick).held);
      && (r.Ok? ==> WasContent(file, r.value, later))
      && (NeverFools(file) && Undisturbed(file, tick) ==> r.Ok? && Some(r.value) == ValueIn(At(file, tick)))
      && (cell.held.Some? ==> r != Err(Unavailable))
  {
    if NeverFools(file) && Undisturbed(file, tick) {
      NextIsCurrent(cell, file, tick);
    }
  }

  /** A file rewritten under the same fingerprint fools the cache. */
  lemma RecurrenceFools()
    ensures
      var file: FileHistory := t => Present(FileIdentity(1, 1, 3), true, Utf8(if t < 2 then "old" else "new"));
      Fools(file, 0, 2) && !Coherent(file)
  {
    var file: FileHistory := t => Present(FileIdentity(1, 1, 3), true, Utf8(if t < 2 then "old" else "new"));
    StripOfStripped("old");
    StripOfStripped("new");
    assert "old"[0] != "new"[0];
    assert Fools(file, 0, 2);
    CoherentIff(file);
  }

  /** From step `a` to step `b` the file stays as it is. */
  ghost predicate Steady(file: FileHistory, a: nat, b: nat) {
    forall t: nat | a <= t <= b :: At(file, t) == At(file, a)
  }

  /** A refresh that sees the file like this from beginning to end loads nothing. */
  predicate Settled(held: Option<Held>, file: FileState) {
    Look(held, file, file).Kept? || Look(held, file, file).Failed?
  }

  /** After one refresh of a steady file further ones change nothing that is served. */
  lemma SteadyRefresh(cell: Cell, file: FileHistory, tick: nat)
    requires At(file, tick) == At(file, tick + 1) && !AccessAt(cell.held, file, tick).Crashed?
    ensures Settled(Refreshed(cell, file, tick).held, At(file, tick))
    ensures Settled(cell.held, At(file, tick)) ==> Refreshed(cell, file, tick).held == cell.held
  {
  }

  /* -------------------------------------------------------------- counters */

  /** How each refresh ended. */
  function Accesses(file: FileHistory, ticks: seq<nat>): (accesses: seq<Access>)
    ensures |accesses| == |ticks|
  {
    if ticks == [] then []
    else
      var front := ticks[..|ticks| - 1];
      Accesses(file, front) + [AccessAt(Replay(file, front).held, file, ticks[|ticks| - 1])]
  }

  function LoadedValues(accesses: seq<Access>): seq<string> {
    if accesses == [] then []
    else
      var last := accesses[|accesses| - 1];
      LoadedValues(accesses[..|accesses| - 1]) + (if last.Loaded? then [last.value] else [])
  }

  /** The places where a value differs from the one before it. */
  function Changes<T(==)>(values: seq<T>): nat {
    if |values| < 2 then 0
    else
      var n := |values| - 1;
      Changes(values[..n]) + (if values[n] != values[n - 1] then 1 else 0)
  }

  /** Values load one after the other; the last one is held and the counter counts its changes. */
  lemma {:induction false} RotationsAreChanges(file: FileHistory, ticks: seq<nat>)
    ensures
      var cell, loaded := Replay(file, ticks), LoadedValues(Accesses(file, ticks));
      && cell.rotations == Changes(loaded)
      && (cell.held.Some? <==> loaded != [])
      && (loaded != [] ==> cell.held.value.value == loaded[|loaded| - 1])
  {
    if ticks != [] {
      var front := ticks[..|ticks| - 1];
      RotationsAreChanges(file, front);
      var before, last := Accesses(file, front), Accesses(file, ticks)[|ticks| - 1];
      assert Accesses(file, ticks)[..|ticks| - 1] == before;
      var loaded := LoadedValues(before);
      if last.Loaded? {
        assert (loaded + [last.value])[..|loaded|] == loaded;
      } else {
        assert loaded + [] == loaded;
      }
    }
  }

  /** The values the file has had up to step `b`, one for each step at which a read would have given any. */
  function ContentsTo(file: FileHistory, b: nat): seq<string> {
    var before := if b == 0 then [] else ContentsTo(file, b - 1);
    if ValueIn(At(file, b)).Some? then before + [ValueIn(At(file, b)).value] else before
  }

  lemma ChangesOneMore<T>(values: seq<T>, v: T)
    ensures Changes(values + [v]) == Changes(values) + (if values != [] && values[|values| - 1] != v then 1 else 0)
  {
    assert (values + [v])[..|values|] == values;
  }

  /** From a value to a different one, however far apart, the contents changed in between. */
  lemma {:induction false} ContentsChange(file: FileHistory, a: nat, b: nat)
    requires a <= b && ValueIn(At(file, a)).Some?
    ensures
      var contents := ContentsTo(file, b);
      && contents != []
      && (ValueIn(At(file, b)).Some? ==> contents[|contents| - 1] == ValueIn(At(file, b)).value)
      && Changes(contents) >= Changes(ContentsTo(file, a))
           + (if contents[|contents| - 1] != ValueIn(At(file, a)).value then 1 else 0)
  {
    if a < b {
      ContentsChange(file, a, b - 1);
      if ValueIn(At(file, b)).Some? {
        ChangesOneMore(ContentsTo(file, b - 1), ValueIn(At(file, b)).value);
      }
    }
  }

  /**
   * No rotation is counted that did not happen: the counter is bounded by how
   * often the file's content changed, whatever became unreadable in between.
   */
  lemma {:induction false} RotationsAreReal(file: FileHistory, ticks: seq<nat>)
    requires Ordered(ticks)
    ensures
      var cell := Replay(file, ticks);
      if cell.held.Some? then cell.rotations <= Changes(ContentsTo(file, cell.held.value.loadedAt))
      else cell.rotations == 0
  {
    if ticks != [] {
      var front := ticks[..|ticks| - 1];
      RotationsAreReal(file, front);
      HeldWasContent(file, front);
      RotationIsReal(Replay(file, front), file, ticks[|ticks| - 1]);
    }
  }

  lemma RotationIsReal(cell: Cell, file: FileHistory, tick: nat)
    requires cell.held.None? ==> cell.rotations == 0
    requires cell.held.Some? ==> cell.held.value.loadedAt <= tick && ReadFrom(file, cell.held.value)
    requires cell.held.Some? ==> cell.rotations <= Changes(ContentsTo(file, cell.held.value.loadedAt))
    ensures
      var after := Refreshed(cell, file, tick);
      if after.held.Some? then after.rotations <= Changes(ContentsTo(file, after.held.value.loadedAt))
      else after.rotations == 0
  {
    if cell.held.Some? {
      ContentsChange(file, cell.held.value.loadedAt, tick + 1);
    }
  }

  /** A file that never has another text counts no rotation, however often it cannot be read. */
  lemma {:induction false} SameTextNeverRotates(file: FileHistory, ticks: seq<nat>, value: string)
    requires Ordered(ticks) && forall t :: ValueIn(At(file, t)).Some? ==> ValueIn(At(file, t)).value == value
    ensures Replay(file, ticks).rotations == 0
  {
    RotationsAreReal(file, ticks);
    if Replay(file, ticks).held.Some? {
      SameTextSameContents(file, Replay(file, ticks).held.value.loadedAt, value);
    }
  }

  lemma {:induction false} SameTextSameContents(file: FileHistory, b: nat, value: string)
    requires forall t :: ValueIn(At(file, t)).Some? ==> ValueIn(At(file, t)).value == value
    ensures forall i | 0 <= i < |ContentsTo(file, b)| :: ContentsTo(file, b)[i] == value
    ensures Changes(ContentsTo(file, b)) == 0
  {
    if b > 0 {
      SameTextSameContents(file, b - 1, value);
      var before := ContentsTo(file, b - 1);
      ChangesOneMore(before, value);
      assert ContentsTo(file, b) == before || ContentsTo(file, b) == before + [value];
    }
  }

  /* -------------------------------------------------------------- degraded */

  /** The latest access of the first `n` that did not raise has failed. */
  ghost predicate FailedLast(accesses: seq<Access>, n: nat)
    requires n <= |accesses|
  {
    exists i | 0 <= i < n :: accesses[i].Failed? && forall j | i < j < n :: accesses[j].Crashed?
  }

  ghost predicate StartsRun(accesses: seq<Access>, i: nat)
    requires i < |accesses|
  {
    accesses[i].Failed? && !FailedLast(accesses, i)
  }

  /** The accesses that begin a run of failures. */
  ghost function FailureRuns(accesses: seq<Access>, n: nat): set<nat>
    requires n <= |accesses|
  {
    set i: nat | i < n && StartsRun(accesses, i)
  }

  lemma FailedLastStep(accesses: seq<Access>, n: nat)
    requires n < |accesses|
    ensures FailedLast(accesses, n + 1) <==>
            accesses[n].Failed? || (accesses[n].Crashed? && FailedLast(accesses, n))
  {
    if accesses[n].Failed? {
      assert FailedLast(accesses, n + 1);
    } else if accesses[n].Crashed? && FailedLast(accesses, n) {
      var i :| 0 <= i < n && accesses[i].Failed? && forall j | i < j < n :: accesses[j].Crashed?;
      assert forall j | i < j < n + 1 :: accesses[j].Crashed?;
    }
  }

  lemma FailureRunsStep(accesses: seq<Access>, n: nat)
    requires n < |accesses|
    ensures |FailureRuns(accesses, n + 1)|
      == |FailureRuns(accesses, n)| + (if StartsRun(accesses, n) then 1 else 0)
  {
    OneMore(FailureRuns(accesses, n), FailureRuns(accesses, n + 1), n, StartsRun(accesses, n));
  }

  lemma OneMore(few: set<nat>, more: set<nat>, n: nat, added: bool)
    requires n !in few && forall i: nat :: i in more <==> i in few || (i == n && added)
    ensures |more| == |few| + if added then 1 else 0
  {
    assert more == if added then few + {n} else few;
  }

  /**
   * The degraded flag says whether the latest access failed, and there is one
   * warning for each run of failures: an access that raises is in no run and
   * breaks none.
   */
  lemma {:induction false} WarningsAreRuns(file: FileHistory, ticks: seq<nat>, n: nat)
    requires n <= |ticks|
    ensures
      var cell, accesses := Replay(file, ticks[..n]), Accesses(file, ticks);
      && (cell.degraded <==> FailedLast(accesses, n))
      && cell.warnings == |FailureRuns(accesses, n)|
  {
    var accesses := Accesses(file, ticks);
    if n == 0 {
      assert FailureRuns(accesses, 0) == {};
    } else {
      WarningsAreRuns(file, ticks, n - 1);
      PrefixStep(file, ticks, n - 1);
      FailedLastStep(accesses, n - 1);
      FailureRunsStep(accesses, n - 1);
    }
  }

  lemma PrefixStep(file: FileHistory, ticks: seq<nat>, n: nat)
    requires n < |ticks|
    ensures Replay(file, ticks[..n + 1]) == Refreshed(Replay(file, ticks[..n]), file, ticks[n])
    ensures Accesses(file, ticks)[n] == AccessAt(Replay(file, ticks[..n]).held, file, ticks[n])
  {
    assert ticks[..n + 1][..n] == ticks[..n];
    AccessesAt(file, ticks, n);
  }

  lemma {:induction false} AccessesAt(file: FileHistory, ticks: seq<nat>, n: nat)
    requires n < |ticks|
    ensures Accesses(file, ticks)[n] == AccessAt(Replay(file, ticks[..n]).held, file, ticks[n])
  {
    if n < |ticks| - 1 {
      AccessesAt(file, ticks[..|ticks| - 1], n);
      assert ticks[..|ticks| - 1][..n] == ticks[..n];
    }
  }

  /** A value once loaded is never lost, and an access that loads nothing changes nothing but the flag. */
  lemma {:induction false} HeldStays(file: FileHistory, ticks: seq<nat>, more: seq<nat>)
    requires Replay(file, ticks).held.Some?
    ensures Replay(file, ticks + more).held.Some?
    ensures LoadedValues(Accesses(file, ticks + more)) == LoadedValues(Accesses(file, ticks))
      ==> Replay(file, ticks + more).held == Replay(file, ticks).held
          && Replay(file, ticks + more).rotations == Replay(file, ticks).rotations
  {
    if more == [] {
      assert ticks + more == ticks;
    } else {
      var front, tick := more[..|more| - 1], more[|more| - 1];
      HeldStays(file, ticks, front);
      FrontOfSum(ticks, more);
      LoadedGrow(file, ticks, front);
      var accesses := Accesses(file, ticks + more);
      assert accesses[..|accesses| - 1] == Accesses(file, ticks + front);
    }
  }

  lemma {:induction false} LoadedGrow(file: FileHistory, ticks: seq<nat>, more: seq<nat>)
    ensures |LoadedValues(Accesses(file, ticks))| <= |LoadedValues(Accesses(file, ticks + more))|
    ensures |LoadedValues(Accesses(file, ticks))| == |LoadedValues(Accesses(file, ticks + more))|
      ==> LoadedValues(Accesses(file, ticks)) == LoadedValues(Accesses(file, ticks + more))
  {
    if more == [] {
      assert ticks + more == ticks;
    } else {
      var front := more[..|more| - 1];
      LoadedGrow(file, ticks, front);
      FrontOfSum(ticks, more);
      var accesses := Accesses(file, ticks + more);
      assert accesses[..|accesses| - 1] == Accesses(file, ticks + front);
    }
  }
}
