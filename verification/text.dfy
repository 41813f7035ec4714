/** Character and string operations the models share, on Python's terms. */
module Text {

  datatype Option<+T> = None | Some(value: T)

  datatype Result<+T, +E> = Ok(value: T) | Err(error: E)

  /** The characters `str.strip` removes and `\s` matches. */
  predicate IsSpace(c: char) {
    || '\t' <= c <= '\r'
    || '\U{1c}' <= c <= ' '
    || c == '\U{85}' || c == '\U{a0}' || c == '\U{1680}'
    || '\U{2000}' <= c <= '\U{200a}'
    || c == '\U{2028}' || c == '\U{2029}' || c == '\U{202f}' || c == '\U{205f}' || c == '\U{3000}'
  }

  /** The characters Python counts as white space. */
  const SPACES :=
    "\t\n\U{0b}\U{0c}\r\U{1c}\U{1d}\U{1e}\U{1f} \U{85}\U{a0}\U{1680}\U{2000}\U{2001}\U{2002}\U{2003}\U{2004}"
    + "\U{2005}\U{2006}\U{2007}\U{2008}\U{2009}\U{200a}\U{2028}\U{2029}\U{202f}\U{205f}\U{3000}"

  lemma SpaceIff(c: char)
    ensures IsSpace(c) <==> c in SPACES
  {
    assert SPACES[0] == '\t' && SPACES[1] == '\n' && SPACES[2] == '\U{0b}' && SPACES[3] == '\U{0c}';
    assert SPACES[4] == '\r' && SPACES[5] == '\U{1c}' && SPACES[6] == '\U{1d}' && SPACES[7] == '\U{1e}';
    assert SPACES[8] == '\U{1f}' && SPACES[9] == ' ' && SPACES[10] == '\U{85}';
    assert SPACES[11] == '\U{a0}' && SPACES[12] == '\U{1680}';
    assert SPACES[13] == '\U{2000}' && SPACES[14] == '\U{2001}' && SPACES[15] == '\U{2002}' && SPACES[16] == '\U{2003}';
    assert SPACES[17] == '\U{2004}' && SPACES[18] == '\U{2005}' && SPACES[19] == '\U{2006}' && SPACES[20] == '\U{2007}';
    assert SPACES[21] == '\U{2008}' && SPACES[22] == '\U{2009}' && SPACES[23] == '\U{200a}';
    assert SPACES[24] == '\U{2028}' && SPACES[25] == '\U{2029}' && SPACES[26] == '\U{202f}';
    assert SPACES[27] == '\U{205f}' && SPACES[28] == '\U{3000}';
  }

  predicate IsDigit(c: char) {
    '0' <= c <= '9'
  }

  predicate AllDigits(s: string) {
    forall i | 0 <= i < |s| :: IsDigit(s[i])
  }

  predicate AllSpace(s: string) {
    forall i | 0 <= i < |s| :: IsSpace(s[i])
  }

  function StripLeft(s: string): string {
    if s != "" && IsSpace(s[0]) then StripLeft(s[1..]) else s
  }

  function StripRight(s: string): string {
    if s != "" && IsSpace(s[|s| - 1]) then StripRight(s[..|s| - 1]) else s
  }

  /** Python's `str.strip()`. */
  function Strip(s: string): string {
    StripRight(StripLeft(s))
  }

  /** No white space at either end. */
  predicate Stripped(s: string) {
    s != "" ==> !IsSpace(s[0]) && !IsSpace(s[|s| - 1])
  }

  lemma {:induction false} StripLeftParts(s: string)
    ensures |StripLeft(s)| <= |s|
    ensures s[|s| - |StripLeft(s)|..] == StripLeft(s)
    ensures AllSpace(s[..|s| - |StripLeft(s)|])
    ensures StripLeft(s) != "" ==> !IsSpace(StripLeft(s)[0])
  {
    if s != "" && IsSpace(s[0]) {
      var rest := s[1..];
      StripLeftParts(rest);
      var k := |rest| - |StripLeft(rest)|;
      assert s[k + 1..] == rest[k..];
      assert s[..k + 1] == [s[0]] + rest[..k];
    }
  }

  lemma {:induction false} StripRightParts(s: string)
    ensures |StripRight(s)| <= |s|
    ensures s[..|StripRight(s)|] == StripRight(s)
    ensures AllSpace(s[|StripRight(s)|..])
    ensures StripRight(s) != "" ==> !IsSpace(StripRight(s)[|StripRight(s)| - 1])
  {
    if s != "" && IsSpace(s[|s| - 1]) {
      var front := s[..|s| - 1];
      StripRightParts(front);
      assert s[|StripRight(s)|..] == front[|StripRight(s)|..] + [s[|s| - 1]];
    }
  }

  /** `Strip` removes white space at both ends, all of it, and nothing else. */
  lemma StripIsTrim(s: string)
    ensures Stripped(Strip(s))
    ensures exists before, after :: s == before + Strip(s) + after && AllSpace(before) && AllSpace(after)
  {
    var left := StripLeft(s);
    StripLeftParts(s);
    StripRightParts(left);
    var before, after := s[..|s| - |left|], left[|Strip(s)|..];
    assert s == before + Strip(s) + after;
  }

  /** Nothing is left of white space, and of nothing else. */
  lemma StripEmptyIff(s: string)
    ensures Strip(s) == "" <==> AllSpace(s)
  {
    StripIsTrim(s);
    StripLeftParts(s);
    var left := StripLeft(s);
    assert left != "" ==> left[0] == s[|s| - |left|];
  }

  /** A string with nothing to strip is left alone. */
  lemma StripOfStripped(s: string)
    requires Stripped(s)
    ensures Strip(s) == s
  {
  }

  lemma {:induction false} StripLeftOfSpaces(spaces: string, s: string)
    requires AllSpace(spaces)
    ensures StripLeft(spaces + s) == StripLeft(s)
  {
    if spaces == "" {
      assert spaces + s == s;
    } else {
      assert (spaces + s)[1..] == spaces[1..] + s;
      StripLeftOfSpaces(spaces[1..], s);
    }
  }

  /** `v` stands in `t` at position `i`. */
  predicate OccursAt(v: string, t: string, i: nat) {
    i + |v| <= |t| && t[i..i + |v|] == v
  }

  /** Python's `v in t`. */
  predicate Occurs(v: string, t: string) {
    exists i: nat | i <= |t| :: OccursAt(v, t, i)
  }

  lemma OccursInPart(v: string, before: string, t: string, after: string)
    requires Occurs(v, t)
    ensures Occurs(v, before + t + after)
  {
    var i: nat :| i <= |t| && OccursAt(v, t, i);
    assert OccursAt(v, before + t + after, |before| + i);
  }

  lemma OccursTransitive(u: string, v: string, t: string)
    requires Occurs(u, v) && Occurs(v, t)
    ensures Occurs(u, t)
  {
    var i: nat :| i <= |t| && OccursAt(v, t, i);
    assert t == t[..i] + v + t[i + |v|..];
    OccursInPart(u, t[..i], v, t[i + |v|..]);
  }

  /** The decimal rendering of a natural number, as an f-string writes it. */
  function Decimal(n: nat): string {
    if n < 10 then [Digit(n)] else Decimal(n / 10) + [Digit(n % 10)]
  }

  function Digit(n: nat): char
    requires n < 10
  {
    '0' + n as char
  }

  function DigitValue(c: char): nat
    requires IsDigit(c)
  {
    (c - '0') as nat
  }

  /** The number a run of digits denotes. */
  function Value(s: string): nat
    requires AllDigits(s)
  {
    if s == "" then 0 else 10 * Value(s[..|s| - 1]) + DigitValue(s[|s| - 1])
  }

  /** Reading a rendered number back gives the number. */
  lemma {:induction false} DecimalRoundTrip(n: nat)
    ensures Decimal(n) != "" && AllDigits(Decimal(n))
    ensures Value(Decimal(n)) == n
  {
    if n >= 10 {
      DecimalRoundTrip(n / 10);
      assert Decimal(n)[..|Decimal(n)| - 1] == Decimal(n / 10);
    } else {
      assert Decimal(n)[..0] == "";
    }
  }

  /** The decimal rendering of an integer. */
  function DecimalInt(n: int): string {
    if n < 0 then "-" + Decimal(-n) else Decimal(n)
  }

  predicate IsInteger(s: string) {
    AllDigits(if s != "" && s[0] == '-' then s[1..] else s)
  }

  function ValueInt(s: string): int
    requires IsInteger(s)
  {
    if s != "" && s[0] == '-' then -(Value(s[1..]) as int) else Value(s)
  }

  lemma DecimalIntRoundTrip(n: int)
    ensures IsInteger(DecimalInt(n)) && ValueInt(DecimalInt(n)) == n
  {
    DecimalRoundTrip(if n < 0 then -n else n);
    if n < 0 {
      assert DecimalInt(n)[1..] == Decimal(-n);
    } else {
      assert IsDigit(DecimalInt(n)[0]);
    }
  }

  /** `sep.join(parts)`. */
  function Join(parts: seq<string>, sep: char): string {
    if |parts| == 0 then ""
    else if |parts| == 1 then parts[0]
    else parts[0] + [sep] + Join(parts[1..], sep)
  }

  /** The pieces between separators; at least one, possibly empty. */
  function Split(s: string, sep: char): seq<string> {
    if s == "" then [""]
    else
      var rest := Split(s[1..], sep);
      if s[0] == sep then [""] + rest
      else if rest == [] then [s]
      else [[s[0]] + rest[0]] + rest[1..]
  }

  lemma JoinStep(p: string, rest: seq<string>, sep: char)
    requires rest != []
    ensures Join([p] + rest, sep) == p + [sep] + Join(rest, sep)
  {
    assert ([p] + rest)[1..] == rest;
  }

  lemma {:induction false} SplitOfJoin(parts: seq<string>, sep: char)
    requires parts != [] && forall p | p in parts :: sep !in p
    ensures Split(Join(parts, sep), sep) == parts
  {
    if |parts| == 1 {
      SplitFirst(parts[0], "", sep);
      assert parts[0] + "" == parts[0];
    } else {
      SplitOfJoin(parts[1..], sep);
      SplitFirst(parts[0], [sep] + Join(parts[1..], sep), sep);
      assert parts[0] + ([sep] + Join(parts[1..], sep)) == Join(parts, sep);
      assert ([sep] + Join(parts[1..], sep))[1..] == Join(parts[1..], sep);
    }
  }

  lemma {:induction false} SplitFirst(p: string, rest: string, sep: char)
    requires sep !in p && (rest != "" ==> rest[0] == sep)
    ensures Split(p + rest, sep) == [p] + (if rest == "" then [] else Split(rest[1..], sep))
  {
    if p == "" {
      assert p + rest == rest;
    } else {
      var s := p + rest;
      assert s[1..] == p[1..] + rest && s[0] == p[0] && p[0] in p;
      SplitFirst(p[1..], rest, sep);
      var tail := Split(s[1..], sep);
      assert [s[0]] + tail[0] == p;
    }
  }

  /** Joined lines determine the lines, but for no line against one empty line. */
  lemma JoinDetermines(a: seq<string>, b: seq<string>, sep: char)
    requires (forall p | p in a :: sep !in p) && (forall p | p in b :: sep !in p)
    ensures Join(a, sep) == Join(b, sep) <==> a == b || (a == [] && b == [""]) || (a == [""] && b == [])
  {
    assert Join([""], sep) == "" == Join([], sep);
    SplitOfJoin(if a == [] then [""] else a, sep);
    SplitOfJoin(if b == [] then [""] else b, sep);
  }

  lemma FirstApart<T>(s: seq<T>)
    requires s != []
    ensures s == [s[0]] + s[1..]
  {
  }

  lemma FrontOfSum<T>(s: seq<T>, more: seq<T>)
    requires more != []
    ensures (s + more)[..|s + more| - 1] == s + more[..|more| - 1]
    ensures (s + more)[|s + more| - 1] == more[|more| - 1]
  {
  }

  lemma Enclosed(open: string, a: string, s: string, b: string, close: string)
    ensures open + a + s + b + close == open + (a + s + b) + close
  {
  }

  lemma LastApart<T>(s: seq<T>)
    requires s != []
    ensures s == s[..|s| - 1] + [s[|s| - 1]]
  {
  }
}
