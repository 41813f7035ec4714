/** How markers, fences and blank lines are spelled, character by character. */
module DocMarkers {
  import opened Text
  import opened DocLines

  /** A marker as an author may space it. */
  function MarkerText(option: Option<string>, a: string, b: string, c: string): string {
    var name := if option.None? then "verify" else "verify:" + b + option.value;
    "<!--" + a + name + c + "-->"
  }

  lemma {:induction false} StripRightOfSpaces(s: string, spaces: string)
    requires AllSpace(spaces)
    ensures StripRight(s + spaces) == StripRight(s)
  {
    if spaces == "" {
      assert s + spaces == s;
    } else {
      var front := spaces[..|spaces| - 1];
      assert (s + spaces)[..|s + spaces| - 1] == s + front;
      StripRightOfSpaces(s, front);
    }
  }

  /** Stripping removes padding and stops at the text. */
  lemma StripOfPadded(a: string, s: string, b: string)
    requires AllSpace(a) && AllSpace(b) && s != "" && Stripped(s)
    ensures Strip(a + s + b) == s
  {
    assert a + s + b == a + (s + b);
    StripLeftOfSpaces(a, s + b);
    assert StripLeft(s + b) == s + b;
    StripRightOfSpaces(s, b);
  }

  lemma OptionIsStripped(option: string)
    requires IsOption(option)
    ensures Stripped(option) && StripLeft(option) == option
  {
    assert !IsSpace(option[0]) && !IsSpace(option[|option| - 1]);
  }

  lemma CommentRoundTrip(option: Option<string>, b: string, name: string)
    requires AllSpace(b) && (option.Some? ==> IsOption(option.value))
    requires name == if option.None? then "verify" else "verify:" + b + option.value
    ensures CommentOption(name) == Some(option) && Stripped(name)
  {
    if option.Some? {
      OptionIsStripped(option.value);
      assert name[|name| - 1] == option.value[|option.value| - 1];
      StripLeftOfSpaces(b, option.value);
      assert name[7..] == b + option.value;
      assert name[..7] == "verify:";
      assert name != "verify";
    }
  }

  /** Every spacing of a marker is read as the option it was written with. */
  lemma MarkerRoundTrip(option: Option<string>, a: string, b: string, c: string)
    requires AllSpace(a) && AllSpace(b) && AllSpace(c)
    requires option.Some? ==> IsOption(option.value)
    ensures MarkerOption(MarkerText(option, a, b, c)) == Some(option)
  {
    var name := if option.None? then "verify" else "verify:" + b + option.value;
    CommentRoundTrip(option, b, name);
    StripOfPadded(a, name, c);
    CommentIsFound(a + name + c);
    Enclosed("<!--", a, name, c, "-->");
  }

  lemma CommentIsFound(inner: string)
    requires |inner| >= 1
    ensures MarkerOption("<!--" + inner + "-->") == CommentOption(Strip(inner))
  {
    var s := "<!--" + inner + "-->";
    assert s[0] == '<' && s[|s| - 1] == '>';
    StripOfStripped(s);
    assert s[..4] == "<!--" && s[|s| - 3..] == "-->";
    assert s[4..|s| - 3] == inner;
  }

  /** The line is a marker for this option, padded and spaced in some way. */
  ghost predicate SpelledMarker(line: string, option: Option<string>) {
    && (option.Some? ==> LettersAndDashes(option.value))
    && exists before, a, b, c, after | SpacesAll(before, a, b, c, after) ::
      line == before + MarkerText(option, a, b, c) + after
  }

  predicate LettersAndDashes(s: string) {
    s != "" && forall c | c in s :: c in "abcdefghijklmnopqrstuvwxyz-"
  }

  predicate SpacesAll(before: string, a: string, b: string, c: string, after: string) {
    AllSpace(before) && AllSpace(a) && AllSpace(b) && AllSpace(c) && AllSpace(after)
  }

  lemma OptionIff(s: string)
    ensures IsOption(s) <==> LettersAndDashes(s)
  {
    var letters := "abcdefghijklmnopqrstuvwxyz-";
    assert letters[26] == '-' && forall i | 0 <= i < 26 :: letters[i] == 'a' + i as char;
    if IsOption(s) {
      forall i | 0 <= i < |s|
        ensures s[i] in letters
      {
        assert s[i] == '-' || s[i] == letters[(s[i] - 'a') as int];
      }
    }
    if LettersAndDashes(s) {
      forall i | 0 <= i < |s|
        ensures 'a' <= s[i] <= 'z' || s[i] == '-'
      {
        assert s[i] in s;
      }
    }
  }

  /** Padding a text that has white space at neither end changes nothing the parser looks at. */
  lemma StripOfAnyPadding(line: string, before: string, s: string, after: string)
    requires AllSpace(before) && AllSpace(after) && line == before + s + after && s != "" && Stripped(s)
    ensures Strip(line) == s
  {
    StripOfPadded(before, s, after);
  }

  lemma MarkerTextEnds(option: Option<string>, a: string, b: string, c: string)
    ensures MarkerText(option, a, b, c) != "" && Stripped(MarkerText(option, a, b, c))
  {
    var s := MarkerText(option, a, b, c);
    assert s[0] == '<' && s[|s| - 1] == '>';
  }

  /** Whatever is taken for a marker can be taken apart into one. */
  lemma MarkerIsSpelled(line: string, option: Option<string>)
    requires MarkerOption(line) == Some(option)
    ensures SpelledMarker(line, option)
  {
    StripIsTrim(line);
    var s := Strip(line);
    var before, after :| line == before + s + after && AllSpace(before) && AllSpace(after);
    var inner := s[4..|s| - 3];
    assert s == "<!--" + inner + "-->";
    StripIsTrim(inner);
    var name := Strip(inner);
    var a, c :| inner == a + name + c && AllSpace(a) && AllSpace(c);
    var b := CommentIsSpelled(name, option);
    if option.Some? {
      OptionIff(option.value);
    }
    Enclosed("<!--", a, name, c, "-->");
    assert SpacesAll(before, a, b, c, after);
  }

  lemma CommentIsSpelled(name: string, option: Option<string>) returns (b: string)
    requires CommentOption(name) == Some(option)
    ensures AllSpace(b) && (option.Some? ==> IsOption(option.value))
    ensures name == if option.None? then "verify" else "verify:" + b + option.value
  {
    b := "";
    if option.Some? {
      var rest := name[7..];
      StripLeftParts(rest);
      b := rest[..|rest| - |StripLeft(rest)|];
      assert rest == b + option.value;
      assert name == "verify:" + rest;
    }
  }

  /** A line is taken for a marker exactly when it is spelled as one, and for the option written in it. */
  lemma MarkerIff(line: string, option: Option<string>)
    ensures MarkerOption(line) == Some(option) <==> SpelledMarker(line, option)
  {
    if MarkerOption(line) == Some(option) {
      MarkerIsSpelled(line, option);
    }
    if SpelledMarker(line, option) {
      if option.Some? {
        OptionIff(option.value);
      }
      var before, a, b, c, after :| SpacesAll(before, a, b, c, after)
        && line == before + MarkerText(option, a, b, c) + after;
      MarkerTextEnds(option, a, b, c);
      StripOfAnyPadding(line, before, MarkerText(option, a, b, c), after);
      StripOfStripped(MarkerText(option, a, b, c));
      MarkerRoundTrip(option, a, b, c);
    }
  }

  /** The line is this text between white space. */
  ghost predicate Padded(line: string, s: string) {
    exists before, after | AllSpace(before) && AllSpace(after) :: line == before + s + after
  }

  lemma PaddedIff(line: string, s: string)
    requires s != "" && Stripped(s)
    ensures Padded(line, s) <==> Strip(line) == s
  {
    StripIsTrim(line);
    if Padded(line, s) {
      var before, after :| AllSpace(before) && AllSpace(after) && line == before + s + after;
      StripOfAnyPadding(line, before, s, after);
    }
  }

  ghost predicate SpelledOpening(line: string) {
    Padded(line, "```bash") || Padded(line, "```sh") || Padded(line, "```shell") || Padded(line, "```console")
  }

  /** A fence opens for one of four languages and closes bare, and a blank line is white space. */
  lemma FenceIff(line: string)
    ensures IsFenceOpen(line) <==> SpelledOpening(line)
    ensures IsFenceClose(line) <==> Padded(line, "```")
    ensures IsBlank(line) <==> AllSpace(line)
  {
    PaddedIff(line, "```bash");
    PaddedIff(line, "```sh");
    PaddedIff(line, "```shell");
    PaddedIff(line, "```console");
    PaddedIff(line, "```");
    StripEmptyIff(line);
    FenceLanguage(Strip(line));
  }

  lemma FenceLanguage(s: string)
    ensures "```" <= s && s[3..] in LANGUAGES <==>
            s == "```bash" || s == "```sh" || s == "```shell" || s == "```console"
  {
    assert "```" <= s ==> s == "```" + s[3..];
    assert "```bash" == "```" + "bash" && "```sh" == "```" + "sh";
    assert "```shell" == "```" + "shell" && "```console" == "```" + "console";
  }
}
