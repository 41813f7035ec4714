/**
 * The log scrubber: literal replacement of every registered secret in whatever
 * order the set yields them, then replacement of credential-shaped spans, and
 * the recursive redaction of structured fields built on it.
 */
module Redaction {
  import opened Text
  import opened Replacement

  const REDACTED := "***REDACTED***"

  const MIN_REDACTABLE_LENGTH := 6

  const PATTERN_COUNT := 3

  /**
   * The spans each pattern cuts from a text. What a real pattern matches is left
   * open: any way of cutting stretches out of the text will do.
   */
  type Matcher = (nat, string) -> seq<Piece>

  ghost predicate Covering(matcher: Matcher) {
    forall i, t :: Before(matcher(i, t)) == t
  }

  function ReplaceValues(t: string, order: seq<string>): string
    requires "" !in order
    decreases |order|
  {
    if order == [] then t
    else ReplaceValues(ReplaceAll(t, order[0], REDACTED), order[1..])
  }

  /** The pattern stage, from the `i`-th pattern on. */
  function ReplacePatterns(t: string, matcher: Matcher, i: nat): string
    decreases PATTERN_COUNT - i
  {
    if i >= PATTERN_COUNT then t
    else ReplacePatterns(After(matcher(i, t), REDACTED), matcher, i + 1)
  }

  /** The scrubber's result when its set yields the values in this order. */
  function Scrubbed(t: string, order: seq<string>, matcher: Matcher): string
    requires "" !in order
  {
    ReplacePatterns(ReplaceValues(t, order), matcher, 0)
  }

  /** Some stretch of the value that cannot run into the marker contains a registered value. */
  ghost predicate Protected(v: string, values: set<string>) {
    exists u, w | w in values :: Occurs(w, u) && Occurs(u, v) && !Overlaps(u, REDACTED)
  }

  /* ------------------------------------------------------------- soundness */

  lemma {:induction false} ValuesAddNothing(t: string, order: seq<string>, u: string)
    requires "" !in order && !Overlaps(u, REDACTED) && !Occurs(u, t)
    ensures !Occurs(u, ReplaceValues(t, order))
    decreases |order|
  {
    if order != [] {
      var next := ReplaceAll(t, order[0], REDACTED);
      ReplaceIsEdit(t, order[0], REDACTED);
      if Occurs(u, next) {
        NoNewOccurrence(Finds(t, order[0]), u, REDACTED);
      }
      ValuesAddNothing(next, order[1..], u);
    }
  }

  lemma {:induction false} ValuesRemove(t: string, order: seq<string>, w: string, u: string)
    requires "" !in order && w in order && Occurs(w, u) && !Overlaps(u, REDACTED)
    ensures !Occurs(u, ReplaceValues(t, order))
    decreases |order|
  {
    var next := ReplaceAll(t, order[0], REDACTED);
    if w == order[0] {
      ReplaceRemoves(t, w, u, REDACTED);
      ValuesAddNothing(next, order[1..], u);
    } else {
      ValuesRemove(next, order[1..], w, u);
    }
  }

  lemma {:induction false} PatternsAddNothing(t: string, matcher: Matcher, i: nat, u: string)
    requires Covering(matcher)
    requires !Overlaps(u, REDACTED) && !Occurs(u, t)
    ensures !Occurs(u, ReplacePatterns(t, matcher, i))
    decreases PATTERN_COUNT - i
  {
    if i < PATTERN_COUNT {
      var pieces := matcher(i, t);
      assert Before(pieces) == t;
      if Occurs(u, After(pieces, REDACTED)) {
        NoNewOccurrence(pieces, u, REDACTED);
      }
      PatternsAddNothing(After(pieces, REDACTED), matcher, i + 1, u);
    }
  }

  /** No protected value is left, whatever the order and whatever the patterns cut. */
  lemma ScrubIsSound(t: string, order: seq<string>, matcher: Matcher, v: string)
    requires "" !in order && Covering(matcher)
    requires Protected(v, set w | w in order)
    ensures !Occurs(v, Scrubbed(t, order, matcher))
  {
    var u, w :| w in order && Occurs(w, u) && Occurs(u, v) && !Overlaps(u, REDACTED);
    ValuesRemove(t, order, w, u);
    PatternsAddNothing(ReplaceValues(t, order), matcher, 0, u);
    if Occurs(v, Scrubbed(t, order, matcher)) {
      OccursTransitive(u, v, Scrubbed(t, order, matcher));
    }
  }

  /** The literal stage leaves an occurrence of `v` in `t`. */
  predicate Leaks(t: string, order: seq<string>, v: string)
    requires "" !in order
  {
    Occurs(v, ReplaceValues(t, order))
  }

  /** A value registered alone leaks from no text exactly when it cannot overlap. */
  lemma SingleValueIff(v: string)
    requires v != ""
    ensures (forall t :: !Leaks(t, [v], v)) <==> !Overlaps(v, REDACTED)
  {
    RemovesIffNoOverlap(v, REDACTED);
    forall t
      ensures Leaks(t, [v], v) <==> Survives(v, t, REDACTED)
    {
      assert ReplaceValues(t, [v]) == ReplaceValues(ReplaceAll(t, v, REDACTED), [v][1..]);
    }
  }

  /** The value is left in no text that registers it, in whatever order and whatever else is registered and cut. */
  ghost predicate NeverLeaks(v: string) {
    forall t, order, matcher: Matcher | "" !in order && v in order && Covering(matcher) ::
      !Occurs(v, Scrubbed(t, order, matcher))
  }

  /** A registered value is always scrubbed, among any others and by any patterns, exactly when it cannot overlap. */
  lemma NeverLeaksIff(v: string)
    requires v != ""
    ensures NeverLeaks(v) <==> !Overlaps(v, REDACTED)
  {
    if !Overlaps(v, REDACTED) {
      OccursItself(v);
      forall t, order, matcher: Matcher | "" !in order && v in order && Covering(matcher)
        ensures !Occurs(v, Scrubbed(t, order, matcher))
      {
        ScrubIsSound(t, order, matcher, v);
      }
    } else {
      SingleValueIff(v);
      var t :| Leaks(t, [v], v);
      CutsNothing(t, [v]);
      assert v in [v] && Occurs(v, Scrubbed(t, [v], UNCUT));
    }
  }

  /** Patterns that match nothing. */
  const UNCUT: Matcher := (i, t) => Whole(t)

  lemma CutsNothing(t: string, order: seq<string>)
    requires "" !in order
    ensures Covering(UNCUT) && Scrubbed(t, order, UNCUT) == ReplaceValues(t, order)
  {
    forall u: string
      ensures Before(Whole(u)) == u && After(Whole(u), REDACTED) == u
    {
      WholeIsItself(u, REDACTED);
    }
    var scrubbed := ReplaceValues(t, order);
    assert ReplacePatterns(scrubbed, UNCUT, 3) == scrubbed;
    assert ReplacePatterns(scrubbed, UNCUT, 2) == scrubbed;
    assert ReplacePatterns(scrubbed, UNCUT, 1) == scrubbed;
  }

  /** A registered value that begins with a star does leak from some text. */
  lemma StarValueLeaks()
    ensures exists t :: Leaks(t, ["*abcde"], "*abcde")
  {
    assert Meets(REDACTED, "*abcde", 1);
    SingleValueIff("*abcde");
  }

  /** Scrubbing a text that holds no registered value changes nothing. */
  lemma {:induction false} ReplaceValuesOfClean(t: string, order: seq<string>)
    requires "" !in order
    requires forall v | v in order :: !Occurs(v, t)
    ensures ReplaceValues(t, order) == t
    decreases |order|
  {
    if order != [] {
      ReplaceOfAbsent(t, order[0], REDACTED);
      ReplaceValuesOfClean(t, order[1..]);
    }
  }

  /** The literal stage is idempotent, even when the second pass takes another order. */
  lemma LiteralStageIdempotent(t: string, first: seq<string>, second: seq<string>)
    requires "" !in first && "" !in second
    requires forall v | v in second :: Protected(v, set w | w in first)
    ensures ReplaceValues(ReplaceValues(t, first), second) == ReplaceValues(t, first)
  {
    var once := ReplaceValues(t, first);
    forall v | v in second
      ensures !Occurs(v, once)
    {
      var u, w :| w in first && Occurs(w, u) && Occurs(u, v) && !Overlaps(u, REDACTED);
      ValuesRemove(t, first, w, u);
      if Occurs(v, once) {
        OccursTransitive(u, v, once);
      }
    }
    ReplaceValuesOfClean(once, second);
  }

  /** What an operator can check by eye: no star, and not a piece of the word. */
  lemma PlainValuesAreProtected(v: string, values: set<string>)
    requires v in values && v != "" && '*' !in v && !Occurs(v, "REDACTED")
    ensures Protected(v, values)
  {
    PlainValuesDoNotOverlap(v);
    OccursItself(v);
  }

  lemma PlainValuesDoNotOverlap(v: string)
    requires v != "" && '*' !in v && !Occurs(v, "REDACTED")
    ensures !Overlaps(v, REDACTED)
  {
    forall k: nat | 1 <= k <= |v| && k <= |REDACTED|
      ensures !Meets(v, REDACTED, k) && !Meets(REDACTED, v, k)
    {
      assert REDACTED[..k][0] == '*' && REDACTED[|REDACTED| - k..][k - 1] == '*';
      assert v[|v| - k..][0] in v && v[..k][k - 1] in v;
    }
    forall j: nat | j <= |v|
      ensures !OccursAt(REDACTED, v, j)
    {
      assert REDACTED[0] == '*';
      assert j + |REDACTED| <= |v| ==> v[j..j + |REDACTED|][0] in v;
    }
    forall j: nat | j <= |REDACTED|
      ensures !OccursAt(v, REDACTED, j)
    {
      NotInsideMarker(v, j);
    }
  }

  lemma NotInsideMarker(v: string, j: nat)
    requires v != "" && '*' !in v && !Occurs(v, "REDACTED")
    ensures !OccursAt(v, REDACTED, j)
  {
    var n := j + |v|;
    if n <= |REDACTED| {
      var part := REDACTED[j..n];
      assert part[0] == REDACTED[j] && part[|v| - 1] == REDACTED[n - 1];
      assert v[0] in v && v[|v| - 1] in v;
      if 3 <= j && n <= 11 {
        SlicesOfWord(j, n);
        assert !OccursAt(v, "REDACTED", j - 3);
      }
    }
  }

  lemma SlicesOfWord(j: nat, n: nat)
    requires 3 <= j <= n <= 11
    ensures "REDACTED"[j - 3..n - 3] == REDACTED[j..n]
  {
    assert REDACTED[3..11] == "REDACTED";
    assert REDACTED[3..11][j - 3..n - 3] == REDACTED[j..n];
  }

  /* -------------------------------------------------------------- registry */

  /** `SecretRegistry`: the live secret values of the process. */
  class SecretRegistry {
    var values: set<string>

    ghost predicate Valid()
      reads this
    {
      forall v | v in values :: Stripped(v) && |v| >= MIN_REDACTABLE_LENGTH
    }

    constructor ()
      ensures Valid() && values == {}
    {
      values := {};
    }

    method Register(value: Option<string>)
      requires Valid()
      modifies this
      ensures Valid()
      ensures values == old(values) + Registrable(value)
    {
      if value.Some? && value.value != "" && |Strip(value.value)| >= MIN_REDACTABLE_LENGTH {
        StripIsTrim(value.value);
        values := values + {Strip(value.value)};
      }
    }

    method Scrub(text: string, matcher: Matcher) returns (scrubbed: string, ghost order: seq<string>)
      requires Valid() && Covering(matcher)
      ensures (set v | v in order) == values && "" !in order
      ensures scrubbed == Scrubbed(text, order, matcher)
      ensures forall v | v in values && Protected(v, values) :: !Occurs(v, scrubbed)
    {
      scrubbed := text;
      order := [];
      var pending := values;
      while pending != {}
        invariant pending <= values
        invariant forall v :: v in order <==> v in values - pending
        invariant "" !in order
        invariant scrubbed == ReplaceValues(text, order)
        decreases pending
      {
        var value :| value in pending;
        ghost var before := scrubbed;
        if Occurs(value, scrubbed) {
          scrubbed := ReplaceAll(scrubbed, value, REDACTED);
        } else {
          ReplaceOfAbsent(scrubbed, value, REDACTED);
        }
        ReplaceOneMore(text, order, value);
        order := order + [value];
        pending := pending - {value};
      }
      var index := 0;
      while index < PATTERN_COUNT
        invariant 0 <= index <= PATTERN_COUNT
        invariant ReplacePatterns(scrubbed, matcher, index) == Scrubbed(text, order, matcher)
      {
        scrubbed := After(matcher(index, scrubbed), REDACTED);
        index := index + 1;
      }
      forall v | v in values && Protected(v, values)
        ensures !Occurs(v, scrubbed)
      {
        ScrubIsSound(text, order, matcher, v);
      }
    }
  }

  /** What registering a value adds: short and blank values are ignored. */
  function Registrable(value: Option<string>): set<string> {
    if value.Some? && |Strip(value.value)| >= MIN_REDACTABLE_LENGTH then {Strip(value.value)} else {}
  }

  lemma {:induction false} ReplaceOneMore(t: string, order: seq<string>, v: string)
    requires "" !in order && v != ""
    ensures ReplaceValues(t, order + [v]) == ReplaceAll(ReplaceValues(t, order), v, REDACTED)
    decreases |order|
  {
    if order == [] {
      assert [] + [v] == [v] && [v][1..] == [];
    } else {
      assert (order + [v])[1..] == order[1..] + [v];
      ReplaceOneMore(ReplaceAll(t, order[0], REDACTED), order[1..], v);
    }
  }
}
