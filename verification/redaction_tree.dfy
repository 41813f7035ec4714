/** Redaction of structured log fields: `_redact_structure`. */
module RedactionTree {
  import opened Text
  import opened Replacement
  import opened Redaction

  /** A JSON-like value; dictionary entries keep their order. */
  datatype Value =
    | Dict(entries: seq<Entry>)
    | List(items: seq<Value>)
    | Str(text: string)
    | Scalar(n: int)

  datatype Entry = Entry(key: string, value: Value)

  const SENSITIVE_KEYS: set<string> := {
    "api_key", "apikey", "authorization", "credential", "password",
    "private_key", "secret", "token", "x-api-key"
  }

  /**
   * `str.lower` as far as it can decide membership in SENSITIVE_KEYS: the only
   * letters with an ASCII lower case are A to Z and the Kelvin sign.
   */
  function Lower(s: string): string {
    seq(|s|, i requires 0 <= i < |s| => LowerChar(s[i]))
  }

  function LowerChar(c: char): char {
    if 'A' <= c <= 'Z' then c - 'A' + 'a' else if c == '\U{212a}' then 'k' else c
  }

  predicate Sensitive(key: string) {
    Lower(key) in SENSITIVE_KEYS
  }

  const LOWER_CASE := "abcdefghijklmnopqrstuvwxyz"
  const UPPER_CASE := "ABCDEFGHIJKLMNOPQRSTUVWXYZ"

  /** The character writes this letter of a name in one case or the other; the Kelvin sign is one more K. */
  predicate WritesLetter(c: char, letter: char) {
    || c == letter
    || (letter == 'k' && c == '\U{212a}')
    || exists i | 0 <= i < 26 :: LOWER_CASE[i] == letter && UPPER_CASE[i] == c
  }

  predicate WritesName(key: string, name: string) {
    |key| == |name| && forall i | 0 <= i < |key| :: WritesLetter(key[i], name[i])
  }

  lemma LettersInOrder()
    ensures forall i | 0 <= i < 26 :: LOWER_CASE[i] == 'a' + i as char && UPPER_CASE[i] == 'A' + i as char
  {
  }

  lemma LetterIff(c: char, letter: char)
    requires LowerChar(letter) == letter
    ensures LowerChar(c) == letter <==> WritesLetter(c, letter)
  {
    LettersInOrder();
    if 'A' <= c <= 'Z' {
      var i := (c - 'A') as int;
      assert UPPER_CASE[i] == c && LOWER_CASE[i] == LowerChar(c);
    }
  }

  lemma NameIff(key: string, name: string)
    requires forall i | 0 <= i < |name| :: LowerChar(name[i]) == name[i]
    ensures Lower(key) == name <==> WritesName(key, name)
  {
    if |key| == |name| {
      forall i | 0 <= i < |key|
        ensures Lower(key)[i] == name[i] <==> WritesLetter(key[i], name[i])
      {
        LetterIff(key[i], name[i]);
      }
      assert Lower(key) == name <==> forall i | 0 <= i < |key| :: Lower(key)[i] == name[i];
    }
  }

  /** A field is sensitive exactly when its name is one of nine, in any mixture of cases. */
  lemma SensitiveIff(key: string)
    ensures Sensitive(key) <==>
            || WritesName(key, "api_key") || WritesName(key, "apikey") || WritesName(key, "authorization")
            || WritesName(key, "credential") || WritesName(key, "password") || WritesName(key, "private_key")
            || WritesName(key, "secret") || WritesName(key, "token") || WritesName(key, "x-api-key")
  {
    NameIff(key, "api_key");
    NameIff(key, "apikey");
    NameIff(key, "authorization");
    NameIff(key, "credential");
    NameIff(key, "password");
    NameIff(key, "private_key");
    NameIff(key, "secret");
    NameIff(key, "token");
    NameIff(key, "x-api-key");
  }

  /** Redact every value under a sensitive key and scrub every other string. */
  function Redact(v: Value, scrub: string -> string): Value {
    match v
    case Dict(entries) => Dict(seq(|entries|, i requires 0 <= i < |entries| => RedactEntry(entries[i], scrub)))
    case List(items) => List(seq(|items|, i requires 0 <= i < |items| => Redact(items[i], scrub)))
    case Str(text) => Str(scrub(text))
    case Scalar(_) => v
  }

  function RedactEntry(e: Entry, scrub: string -> string): Entry {
    Entry(e.key, if Sensitive(e.key) then Str(REDACTED) else Redact(e.value, scrub))
  }

  /** The two values differ at most in their strings and under sensitive keys. */
  predicate SameShape(a: Value, b: Value) {
    match (a, b)
    case (Dict(xs), Dict(ys)) =>
      && |xs| == |ys|
      && forall i | 0 <= i < |xs| ::
        xs[i].key == ys[i].key && (Sensitive(xs[i].key) || SameShape(xs[i].value, ys[i].value))
    case (List(xs), List(ys)) => |xs| == |ys| && forall i | 0 <= i < |xs| :: SameShape(xs[i], ys[i])
    case (Str(_), Str(_)) => true
    case (Scalar(m), Scalar(n)) => m == n
    case _ => false
  }

  /** Every value under a sensitive key, at any depth, is the marker. */
  predicate SensitiveMarked(v: Value) {
    match v
    case Dict(entries) =>
      forall i | 0 <= i < |entries| ::
        if Sensitive(entries[i].key) then entries[i].value == Str(REDACTED) else SensitiveMarked(entries[i].value)
    case List(items) => forall i | 0 <= i < |items| :: SensitiveMarked(items[i])
    case _ => true
  }

  /** Going down the tree at these places, never under a sensitive key, one comes to this value. */
  predicate LeadsTo(v: Value, path: seq<nat>, leaf: Value) {
    if path == [] then v == leaf
    else
      match v
      case Dict(entries) =>
        path[0] < |entries| && !Sensitive(entries[path[0]].key) && LeadsTo(entries[path[0]].value, path[1..], leaf)
      case List(items) => path[0] < |items| && LeadsTo(items[path[0]], path[1..], leaf)
      case _ => false
  }

  /** Away from sensitive keys each string is scrubbed where it stands, and nothing else is touched. */
  lemma {:induction false} RedactInPlace(v: Value, path: seq<nat>, leaf: Value, scrub: string -> string)
    requires LeadsTo(v, path, leaf)
    ensures leaf.Str? ==> LeadsTo(Redact(v, scrub), path, Str(scrub(leaf.text)))
    ensures leaf.Scalar? ==> LeadsTo(Redact(v, scrub), path, leaf)
    decreases |path|
  {
    if path != [] {
      match v {
        case Dict(entries) => RedactInPlace(entries[path[0]].value, path[1..], leaf, scrub);
        case List(items) => RedactInPlace(items[path[0]], path[1..], leaf, scrub);
      }
    }
  }

  /** No string in the tree holds `secret`; dictionary keys are not looked at. */
  predicate Free(v: Value, secret: string) {
    match v
    case Dict(entries) => forall i | 0 <= i < |entries| :: Free(entries[i].value, secret)
    case List(items) => forall i | 0 <= i < |items| :: Free(items[i], secret)
    case Str(text) => !Occurs(secret, text)
    case Scalar(_) => true
  }

  function Scrubber(order: seq<string>, matcher: Matcher): string -> string
    requires "" !in order
  {
    t => Scrubbed(t, order, matcher)
  }

  lemma ProtectedIsNotInMarker(v: string, values: set<string>)
    requires Protected(v, values)
    ensures !Occurs(v, REDACTED)
  {
    if Occurs(v, REDACTED) {
      var u, w :| w in values && Occurs(w, u) && Occurs(u, v) && !Overlaps(u, REDACTED);
      OccursTransitive(u, v, REDACTED);
    }
  }

  /** Shape kept, sensitive fields marked, and no protected value in any string. */
  lemma {:induction false} RedactIsSafe(v: Value, order: seq<string>, matcher: Matcher, secret: string)
    requires "" !in order && Covering(matcher)
    requires Protected(secret, set w | w in order)
    ensures SameShape(v, Redact(v, Scrubber(order, matcher)))
    ensures SensitiveMarked(Redact(v, Scrubber(order, matcher)))
    ensures Free(Redact(v, Scrubber(order, matcher)), secret)
  {
    match v {
      case Dict(entries) =>
        ProtectedIsNotInMarker(secret, set w | w in order);
        forall i | 0 <= i < |entries| {
          RedactIsSafe(entries[i].value, order, matcher, secret);
        }
      case List(items) =>
        forall i | 0 <= i < |items| {
          RedactIsSafe(items[i], order, matcher, secret);
        }
      case Str(text) =>
        ScrubIsSound(text, order, matcher, secret);
      case Scalar(_) =>
    }
  }

  function LiteralScrubber(order: seq<string>): string -> string
    requires "" !in order
  {
    t => ReplaceValues(t, order)
  }

  /** With the literal stage alone, redacting a redacted value changes nothing. */
  lemma {:induction false} RedactTwice(v: Value, first: seq<string>, second: seq<string>)
    requires "" !in first && "" !in second
    requires forall w | w in second :: Protected(w, set u | u in first)
    ensures
      var once := Redact(v, LiteralScrubber(first));
      Redact(once, LiteralScrubber(second)) == once
  {
    match v {
      case Dict(entries) =>
        forall i | 0 <= i < |entries| {
          RedactTwice(entries[i].value, first, second);
        }
      case List(items) =>
        forall i | 0 <= i < |items| {
          RedactTwice(items[i], first, second);
        }
      case Str(text) =>
        LiteralStageIdempotent(text, first, second);
      case Scalar(_) =>
    }
  }
}
