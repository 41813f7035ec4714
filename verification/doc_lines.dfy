/** What one line of a document is to the block parser. */
module DocLines {
  import opened Text

  const LANGUAGES: set<string> := {"bash", "sh", "shell", "console"}

  /** The characters `str.splitlines` breaks lines at. */
  predicate IsBreak(c: char) {
    '\n' <= c <= '\r' || '\U{1c}' <= c <= '\U{1e}' || c == '\U{85}' || c == '\U{2028}' || c == '\U{2029}'
  }

  /** A return and a newline together are one break. */
  function BreakLength(text: string): (n: nat)
    requires text != ""
    ensures 1 <= n <= |text|
  {
    if |text| >= 2 && text[0] == '\r' && text[1] == '\n' then 2 else 1
  }

  /** Python's `str.splitlines()`: a break at the end begins no further line. */
  function SplitLines(text: string): seq<string>
    decreases |text|
  {
    if text == "" then []
    else if IsBreak(text[0]) then [""] + SplitLines(text[BreakLength(text)..])
    else
      var rest := SplitLines(text[1..]);
      if rest == [] then [text] else [[text[0]] + rest[0]] + rest[1..]
  }

  /** The breaks of one character. */
  const BREAKS := "\n\U{0b}\U{0c}\r\U{1c}\U{1d}\U{1e}\U{85}\U{2028}\U{2029}"

  lemma BreakIff(c: char)
    ensures IsBreak(c) <==> c in BREAKS
  {
    assert BREAKS[0] == '\n' && BREAKS[1] == '\U{0b}' && BREAKS[2] == '\U{0c}' && BREAKS[3] == '\r';
    assert BREAKS[4] == '\U{1c}' && BREAKS[5] == '\U{1d}' && BREAKS[6] == '\U{1e}';
    assert BREAKS[7] == '\U{85}' && BREAKS[8] == '\U{2028}' && BREAKS[9] == '\U{2029}';
  }

  predicate NoBreak(line: string) {
    forall i | 0 <= i < |line| :: line[i] !in BREAKS
  }

  /** What ends a line: one break, or a return and a newline. */
  predicate EndsLine(end: string) {
    end == "\r\n" || (|end| == 1 && end[0] in BREAKS)
  }

  lemma {:induction false} LinesHaveNoBreak(text: string)
    ensures forall i | 0 <= i < |SplitLines(text)| :: NoBreak(SplitLines(text)[i]) && '\n' !in SplitLines(text)[i]
    decreases |text|
  {
    if text != "" {
      BreakIff(text[0]);
      if IsBreak(text[0]) {
        LinesHaveNoBreak(text[BreakLength(text)..]);
      } else {
        LinesHaveNoBreak(text[1..]);
        assert BREAKS[0] == '\n';
        assert SplitLines(text[1..]) == [] ==> text[1..] == "";
      }
    }
  }

  /** A line ends at the first break, whichever it is; a return takes a newline behind it along. */
  lemma {:induction false} SplitFirstLine(line: string, end: string, rest: string)
    requires NoBreak(line) && EndsLine(end) && !(end == "\r" && rest != "" && rest[0] == '\n')
    ensures SplitLines(line + end + rest) == [line] + SplitLines(rest)
  {
    var text := line + end + rest;
    if line == "" {
      assert text == end + rest && text[|end|..] == rest;
      BreakIff(text[0]);
      assert BREAKS[3] == '\r';
      assert |end| == 1 && |text| >= 2 ==> text[1] == rest[0];
      assert BreakLength(text) == |end|;
    } else {
      BreakIff(text[0]);
      assert text[0] == line[0] && text[1..] == line[1..] + end + rest;
      SplitFirstLine(line[1..], end, rest);
      assert [line[0]] + line[1..] == line;
    }
  }

  /** What is behind the last break is a line if there is anything. */
  lemma {:induction false} SplitLastLine(line: string)
    requires NoBreak(line)
    ensures SplitLines(line) == if line == "" then [] else [line]
  {
    if line != "" {
      BreakIff(line[0]);
      SplitLastLine(line[1..]);
      assert [line[0]] + line[1..] == line;
    }
  }

  /** Lines written out, each with its end, and something behind the last. */
  function LinesText(lines: seq<string>, ends: seq<string>, last: string): string
    requires |lines| == |ends|
  {
    if lines == [] then last else lines[0] + ends[0] + LinesText(lines[1..], ends[1..], last)
  }

  /** No line holds a break, and no two ends could be read as one. */
  predicate Separate(lines: seq<string>, ends: seq<string>, last: string) {
    && |lines| == |ends| && NoBreak(last)
    && (forall i | 0 <= i < |lines| :: NoBreak(lines[i]) && EndsLine(ends[i]))
    && forall i | 0 < i < |lines| :: ends[i - 1] == "\r" && lines[i] == "" ==> ends[i][0] != '\n'
  }

  /** Splitting gives back the lines that were written, however each of them ends. */
  lemma {:induction false} SplitOfLinesText(lines: seq<string>, ends: seq<string>, last: string)
    requires Separate(lines, ends, last)
    ensures SplitLines(LinesText(lines, ends, last)) == lines + if last == "" then [] else [last]
  {
    if lines == [] {
      SplitLastLine(last);
    } else {
      var rest := LinesText(lines[1..], ends[1..], last);
      StartOfLinesText(lines, ends, last);
      SplitFirstLine(lines[0], ends[0], rest);
      SplitOfLinesText(lines[1..], ends[1..], last);
    }
  }

  lemma StartOfLinesText(lines: seq<string>, ends: seq<string>, last: string)
    requires Separate(lines, ends, last) && lines != []
    ensures Separate(lines[1..], ends[1..], last)
    ensures
      var rest := LinesText(lines[1..], ends[1..], last);
      !(ends[0] == "\r" && rest != "" && rest[0] == '\n')
  {
    assert BREAKS[0] == '\n';
    if |lines| > 1 {
      assert lines[1..][0] == lines[1] && ends[1..][0] == ends[1];
    }
  }

  predicate IsBlank(line: string) {
    Strip(line) == ""
  }

  predicate IsFenceOpen(line: string) {
    "```" <= Strip(line) && Strip(line)[3..] in LANGUAGES
  }

  predicate IsFenceClose(line: string) {
    Strip(line) == "```"
  }

  /** The characters of an option, `[a-z-]+`. */
  predicate IsOption(s: string) {
    s != "" && forall i | 0 <= i < |s| :: 'a' <= s[i] <= 'z' || s[i] == '-'
  }

  /** None for a line that is no marker, otherwise the option the marker names. */
  function MarkerOption(line: string): Option<Option<string>> {
    var s := Strip(line);
    if |s| >= 7 && "<!--" <= s && s[|s| - 3..] == "-->" then CommentOption(Strip(s[4..|s| - 3])) else None
  }

  function CommentOption(comment: string): Option<Option<string>> {
    if comment == "verify" then Some(None)
    else if "verify:" <= comment && IsOption(StripLeft(comment[7..])) then Some(Some(StripLeft(comment[7..])))
    else None
  }

  predicate IsMarker(line: string) {
    MarkerOption(line).Some?
  }

  /** What the three patterns and the blank test make of a line. */
  datatype Kind = Marker(option: Option<string>) | FenceOpen | FenceClose | Blank | Other

  function KindOf(line: string): Kind {
    if IsMarker(line) then Marker(MarkerOption(line).value)
    else if IsFenceOpen(line) then FenceOpen
    else if IsFenceClose(line) then FenceClose
    else if IsBlank(line) then Blank
    else Other
  }

  function KindsOf(lines: seq<string>): seq<Kind> {
    seq(|lines|, i requires 0 <= i < |lines| => KindOf(lines[i]))
  }

  /** No line matches two of the tests, so the parser may ask them in any order. */
  lemma KindDecidesTests(line: string)
    ensures MarkerOption(line) == (if KindOf(line).Marker? then Some(KindOf(line).option) else None)
    ensures IsFenceOpen(line) <==> KindOf(line).FenceOpen?
    ensures IsFenceClose(line) <==> KindOf(line).FenceClose?
    ensures IsBlank(line) <==> KindOf(line).Blank?
  {
    var s := Strip(line);
    assert s != "" && "<!--" <= s ==> s[0] == '<';
    assert IsFenceOpen(line) || IsFenceClose(line) ==> s[0] == '`';
    if IsFenceClose(line) {
      assert s[3..] == "";
    }
  }
}
