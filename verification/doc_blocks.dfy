/** The documentation verifier's block parser: `extract_blocks`. */
module DocBlocks {
  import opened Text
  import opened DocLines
  import opened DocMarkers

  /** A marked block; `line` is the 1-based number of its opening fence. */
  datatype Block = Block(line: nat, code: string, option: Option<string>)

  /** The lines a block occupies: marker, opening fence, closing fence or end. */
  datatype Span = Span(marker: nat, fence: nat, close: nat)

  /* -------------------------------------------------- declarative reading */

  /** A marker whose next non-blank line is an opening fence. */
  predicate StartsBlock(kinds: seq<Kind>, m: nat, fence: nat) {
    && m < fence < |kinds|
    && kinds[m].Marker?
    && (forall j | m < j < fence :: kinds[j].Blank?)
    && kinds[fence].FenceOpen?
  }

  /** Line `m` is a marker that starts a block. */
  predicate StartsAt(kinds: seq<Kind>, m: nat) {
    exists f: nat | f < |kinds| :: StartsBlock(kinds, m, f)
  }

  /** The span starts a block that runs to its first closing fence or the end. */
  predicate IsBlockAt(kinds: seq<Kind>, span: Span) {
    && StartsBlock(kinds, span.marker, span.fence)
    && span.fence < span.close <= |kinds|
    && (forall j | span.fence < j < span.close :: !kinds[j].FenceClose?)
    && (span.close < |kinds| ==> kinds[span.close].FenceClose?)
  }

  predicate Covered(spans: seq<Span>, m: nat) {
    exists k | 0 <= k < |spans| :: spans[k].marker <= m <= spans[k].close
  }

  predicate InOrder(spans: seq<Span>) {
    forall k, l | 0 <= k < l < |spans| :: spans[k].close < spans[l].marker
  }

  predicate AllBlocks(kinds: seq<Kind>, i: nat, spans: seq<Span>) {
    forall k | 0 <= k < |spans| :: i <= spans[k].marker && IsBlockAt(kinds, spans[k])
  }

  ghost predicate NoneMissed(kinds: seq<Kind>, i: nat, spans: seq<Span>) {
    forall m: nat | i <= m && StartsAt(kinds, m) :: Covered(spans, m)
  }

  /**
   * The document's marked blocks from line `i` on: each span is a block, spans
   * come in order without sharing a line, and a marker that starts a block is
   * passed over only inside an earlier block.
   */
  ghost predicate MarkedBlocks(kinds: seq<Kind>, i: nat, spans: seq<Span>) {
    AllBlocks(kinds, i, spans) && InOrder(spans) && NoneMissed(kinds, i, spans)
  }

  /* --------------------------------------------------------- the algorithm */

  /** The first line from `i` on that is not blank, or the end. */
  function SkipBlank(kinds: seq<Kind>, i: nat): (j: nat)
    requires i <= |kinds|
    ensures i <= j <= |kinds|
    ensures forall l | i <= l < j :: kinds[l].Blank?
    ensures j < |kinds| ==> !kinds[j].Blank?
    decreases |kinds| - i
  {
    if i < |kinds| && kinds[i].Blank? then SkipBlank(kinds, i + 1) else i
  }

  /** The first closing fence from `i` on, or the end. */
  function FindClose(kinds: seq<Kind>, i: nat): (j: nat)
    requires i <= |kinds|
    ensures i <= j <= |kinds|
    ensures forall l | i <= l < j :: !kinds[l].FenceClose?
    ensures j < |kinds| ==> kinds[j].FenceClose?
    decreases |kinds| - i
  {
    if i < |kinds| && !kinds[i].FenceClose? then FindClose(kinds, i + 1) else i
  }

  /** The fence of the block that starts at line `m`, if one does. */
  function FenceAt(kinds: seq<Kind>, m: nat): (fence: Option<nat>)
    requires m < |kinds|
    ensures fence.Some? <==> StartsAt(kinds, m)
    ensures fence.Some? ==> StartsBlock(kinds, m, fence.value)
    ensures forall f: nat | StartsBlock(kinds, m, f) :: fence == Some(f)
  {
    var f := SkipBlank(kinds, m + 1);
    if kinds[m].Marker? && f < |kinds| && kinds[f].FenceOpen? then
      assert StartsBlock(kinds, m, f);
      Some(f)
    else None
  }

  function SpanAt(kinds: seq<Kind>, m: nat): (span: Span)
    requires m < |kinds| && FenceAt(kinds, m).Some?
    ensures IsBlockAt(kinds, span) && span.marker == m
  {
    var fence := FenceAt(kinds, m).value;
    Span(m, fence, FindClose(kinds, fence + 1))
  }

  /** The spans found from line `i` on. */
  function Spans(kinds: seq<Kind>, i: nat): seq<Span>
    decreases |kinds| - i
  {
    if i >= |kinds| then []
    else if FenceAt(kinds, i).None? then Spans(kinds, i + 1)
    else [SpanAt(kinds, i)] + Spans(kinds, SpanAt(kinds, i).close + 1)
  }

  /** A line that starts no block makes no difference. */
  lemma PassedOver(kinds: seq<Kind>, i: nat, next: nat, spans: seq<Span>)
    requires i < |kinds| && !StartsAt(kinds, i) && next == i + 1
    ensures MarkedBlocks(kinds, i, spans) <==> MarkedBlocks(kinds, next, spans)
  {
    if AllBlocks(kinds, i, spans) {
      forall k | 0 <= k < |spans|
        ensures next <= spans[k].marker
      {
        assert StartsAt(kinds, spans[k].marker);
      }
    }
  }

  lemma NoSpansLeft(kinds: seq<Kind>, i: nat)
    requires i >= |kinds|
    ensures MarkedBlocks(kinds, i, [])
  {
  }

  lemma {:induction false} SpansAreMarked(kinds: seq<Kind>, i: nat)
    ensures MarkedBlocks(kinds, i, Spans(kinds, i))
    decreases |kinds| - i
  {
    if i >= |kinds| {
      NoSpansLeft(kinds, i);
    } else if FenceAt(kinds, i).None? {
      SpansAreMarked(kinds, i + 1);
      PassedOver(kinds, i, i + 1, Spans(kinds, i));
    } else {
      var span := SpanAt(kinds, i);
      SpansAreMarked(kinds, span.close + 1);
      ConsIsMarked(kinds, span, span.close + 1, Spans(kinds, span.close + 1), Spans(kinds, i));
    }
  }

  lemma ConsIsMarked(kinds: seq<Kind>, first: Span, next: nat, rest: seq<Span>, spans: seq<Span>)
    requires IsBlockAt(kinds, first) && next == first.close + 1 && MarkedBlocks(kinds, next, rest)
    requires spans == [first] + rest
    ensures MarkedBlocks(kinds, first.marker, spans)
  {
    forall m: nat | first.marker <= m && StartsAt(kinds, m)
      ensures Covered(spans, m)
    {
      if m <= first.close {
        assert spans[0] == first;
      } else {
        var k :| 0 <= k < |rest| && rest[k].marker <= m <= rest[k].close;
        assert spans[k + 1] == rest[k];
      }
    }
  }

  lemma FirstOfMarked(kinds: seq<Kind>, i: nat, spans: seq<Span>)
    requires i < |kinds| && FenceAt(kinds, i).Some? && MarkedBlocks(kinds, i, spans)
    ensures spans != [] && spans[0] == SpanAt(kinds, i)
  {
    var k :| 0 <= k < |spans| && spans[k].marker <= i <= spans[k].close;
    assert IsBlockAt(kinds, spans[0]);
  }

  lemma RestIsMarked(kinds: seq<Kind>, i: nat, spans: seq<Span>, next: nat, rest: seq<Span>)
    requires MarkedBlocks(kinds, i, spans) && spans != []
    requires next == spans[0].close + 1 && rest == spans[1..]
    ensures MarkedBlocks(kinds, next, rest)
  {
    assert forall k | 0 <= k < |rest| :: rest[k] == spans[k + 1];
    forall m: nat | next <= m && StartsAt(kinds, m)
      ensures Covered(rest, m)
    {
      assert i <= spans[0].marker;
      var k :| 0 <= k < |spans| && spans[k].marker <= m <= spans[k].close;
      assert rest[k - 1] == spans[k];
    }
  }

  lemma NoneAtEnd(kinds: seq<Kind>, i: nat, spans: seq<Span>)
    requires i >= |kinds| && MarkedBlocks(kinds, i, spans)
    ensures spans == []
  {
    assert spans != [] ==> IsBlockAt(kinds, spans[0]);
  }

  lemma SpansStep(kinds: seq<Kind>, i: nat)
    requires i < |kinds|
    ensures FenceAt(kinds, i).None? ==> Spans(kinds, i) == Spans(kinds, i + 1)
    ensures FenceAt(kinds, i).Some? ==>
        Spans(kinds, i) == [SpanAt(kinds, i)] + Spans(kinds, SpanAt(kinds, i).close + 1)
  {
  }

  lemma MarkedApart(kinds: seq<Kind>, i: nat, spans: seq<Span>, span: Span, next: nat)
    requires i < |kinds| && FenceAt(kinds, i).Some? && MarkedBlocks(kinds, i, spans)
    requires span == SpanAt(kinds, i) && next == span.close + 1
    ensures spans != [] && spans == [span] + spans[1..] && MarkedBlocks(kinds, next, spans[1..])
  {
    FirstOfMarked(kinds, i, spans);
    FirstApart(spans);
    RestIsMarked(kinds, i, spans, next, spans[1..]);
  }

  /** Nothing else is a document's sequence of marked blocks. */
  lemma {:induction false} MarkedAreSpans(kinds: seq<Kind>, i: nat, spans: seq<Span>)
    requires MarkedBlocks(kinds, i, spans)
    ensures spans == Spans(kinds, i)
    decreases |kinds| - i
  {
    if i >= |kinds| {
      NoneAtEnd(kinds, i, spans);
    } else if FenceAt(kinds, i).None? {
      SpansStep(kinds, i);
      PassedOver(kinds, i, i + 1, spans);
      MarkedAreSpans(kinds, i + 1, spans);
    } else {
      SpansStep(kinds, i);
      var span := SpanAt(kinds, i);
      MarkedApart(kinds, i, spans, span, span.close + 1);
      MarkedAreSpans(kinds, span.close + 1, spans[1..]);
    }
  }

  /** The scan finds the marked blocks and nothing else. */
  lemma SpansIffMarked(kinds: seq<Kind>, spans: seq<Span>)
    ensures spans == Spans(kinds, 0) <==> MarkedBlocks(kinds, 0, spans)
  {
    SpansAreMarked(kinds, 0);
    if MarkedBlocks(kinds, 0, spans) {
      MarkedAreSpans(kinds, 0, spans);
    }
  }

  /* ------------------------------------------------------------ the parser */

  /** What a span contributes to the result. */
  function BlockOf(lines: seq<string>, kinds: seq<Kind>, span: Span): Block
    requires |lines| == |kinds| && IsBlockAt(kinds, span)
  {
    Block(span.fence + 1, Join(lines[span.fence + 1..span.close], '\n'), kinds[span.marker].option)
  }

  function BlocksOf(lines: seq<string>, kinds: seq<Kind>, spans: seq<Span>): seq<Block>
    requires |lines| == |kinds| && AllBlocks(kinds, 0, spans)
  {
    seq(|spans|, k requires 0 <= k < |spans| => BlockOf(lines, kinds, spans[k]))
  }

  /** The spans are the marked blocks among the lines before `i`. */
  ghost predicate MarkedBefore(kinds: seq<Kind>, i: nat, spans: seq<Span>) {
    && AllBlocks(kinds, 0, spans)
    && InOrder(spans)
    && (forall k | 0 <= k < |spans| :: spans[k].close < i)
    && (forall m: nat | m < i && StartsAt(kinds, m) :: Covered(spans, m))
  }

  lemma PassLine(kinds: seq<Kind>, i: nat, spans: seq<Span>)
    requires i < |kinds| && FenceAt(kinds, i).None? && MarkedBefore(kinds, i, spans)
    ensures MarkedBefore(kinds, i + 1, spans)
  {
  }

  lemma BlocksOneMore(lines: seq<string>, kinds: seq<Kind>, spans: seq<Span>, span: Span, more: seq<Span>)
    requires |lines| == |kinds| && AllBlocks(kinds, 0, spans) && IsBlockAt(kinds, span) && more == spans + [span]
    ensures AllBlocks(kinds, 0, more)
    ensures BlocksOf(lines, kinds, more) == BlocksOf(lines, kinds, spans) + [BlockOf(lines, kinds, span)]
  {
  }

  lemma PassSpan(kinds: seq<Kind>, spans: seq<Span>, span: Span, next: nat, more: seq<Span>)
    requires IsBlockAt(kinds, span) && MarkedBefore(kinds, span.marker, spans)
    requires next == span.close + 1 && more == spans + [span] && AllBlocks(kinds, 0, more)
    ensures MarkedBefore(kinds, next, more)
  {
    forall m: nat | m < next && StartsAt(kinds, m)
      ensures Covered(more, m)
    {
      if m < span.marker {
        var k :| 0 <= k < |spans| && spans[k].marker <= m <= spans[k].close;
        assert more[k] == spans[k];
      } else {
        assert more[|spans|] == span;
      }
    }
    InOrderOneMore(spans, span, more);
  }

  lemma InOrderOneMore(spans: seq<Span>, span: Span, more: seq<Span>)
    requires InOrder(spans) && more == spans + [span] && forall k | 0 <= k < |spans| :: spans[k].close < span.marker
    ensures InOrder(more)
  {
  }

  lemma PassBlock(lines: seq<string>, kinds: seq<Kind>, spans: seq<Span>, span: Span, block: Block)
    requires |lines| == |kinds| && IsBlockAt(kinds, span) && MarkedBefore(kinds, span.marker, spans)
    requires block == BlockOf(lines, kinds, span)
    ensures MarkedBefore(kinds, span.close + 1, spans + [span])
    ensures BlocksOf(lines, kinds, spans + [span]) == BlocksOf(lines, kinds, spans) + [block]
  {
    BlocksOneMore(lines, kinds, spans, span, spans + [span]);
    PassSpan(kinds, spans, span, span.close + 1, spans + [span]);
  }

  /** The blocks are those of the document's marked spans. */
  ghost predicate Extracts(lines: seq<string>, kinds: seq<Kind>, blocks: seq<Block>)
    requires |lines| == |kinds|
  {
    exists spans :: MarkedBlocks(kinds, 0, spans) && blocks == BlocksOf(lines, kinds, spans)
  }

  /** Each document has one sequence of blocks. */
  lemma ExtractsOne(lines: seq<string>, kinds: seq<Kind>, a: seq<Block>, b: seq<Block>)
    requires |lines| == |kinds| && Extracts(lines, kinds, a) && Extracts(lines, kinds, b)
    ensures a == b
  {
    var s :| MarkedBlocks(kinds, 0, s) && a == BlocksOf(lines, kinds, s);
    var t :| MarkedBlocks(kinds, 0, t) && b == BlocksOf(lines, kinds, t);
    SpansIffMarked(kinds, s);
    SpansIffMarked(kinds, t);
  }

  /** The parser's three loops, over the lines and the kind of each. */
  method ScanBlocks(lines: seq<string>, kinds: seq<Kind>) returns (blocks: seq<Block>)
    requires |lines| == |kinds|
    ensures Extracts(lines, kinds, blocks)
  {
    blocks := [];
    ghost var spans: seq<Span> := [];
    var index := 0;
    while index < |lines|
      invariant 0 <= index <= |lines| + 1
      invariant MarkedBefore(kinds, index, spans)
      invariant blocks == BlocksOf(lines, kinds, spans)
    {
      if !kinds[index].Marker? {
        PassLine(kinds, index, spans);
        index := index + 1;
        continue;
      }
      var cursor := index + 1;
      while cursor < |lines| && kinds[cursor].Blank?
        invariant index < cursor <= |lines|
        invariant forall l | index < l < cursor :: kinds[l].Blank?
      {
        cursor := cursor + 1;
      }
      if cursor >= |lines| || !kinds[cursor].FenceOpen? {
        PassLine(kinds, index, spans);
        index := index + 1;
        continue;
      }
      var fenceLine := cursor + 1;
      var body: seq<string> := [];
      cursor := cursor + 1;
      while cursor < |lines| && !kinds[cursor].FenceClose?
        invariant fenceLine <= cursor <= |lines|
        invariant forall l | fenceLine <= l < cursor :: !kinds[l].FenceClose?
        invariant |body| == cursor - fenceLine
        invariant forall k | 0 <= k < |body| :: body[k] == lines[fenceLine + k]
      {
        body := body + [lines[cursor]];
        cursor := cursor + 1;
      }
      assert body == lines[fenceLine..cursor];
      var block := Block(fenceLine, Join(body, '\n'), kinds[index].option);
      ghost var span := Span(index, fenceLine - 1, cursor);
      assert StartsBlock(kinds, index, fenceLine - 1);
      PassBlock(lines, kinds, spans, span, block);
      blocks := blocks + [block];
      spans := spans + [span];
      index := cursor + 1;
    }
    AllPassed(kinds, index, spans);
  }

  lemma AllPassed(kinds: seq<Kind>, i: nat, spans: seq<Span>)
    requires MarkedBefore(kinds, i, spans) && i >= |kinds|
    ensures MarkedBlocks(kinds, 0, spans)
  {
  }

  /**
   * The block as its lines spell it: a marker, blank lines, an opening fence, the
   * code, and the first closing fence or the end of the text.
   */
  ghost predicate SpelledBlock(lines: seq<string>, span: Span, block: Block) {
    var Span(m, f, c) := span;
    && m < f < c <= |lines|
    && SpelledMarker(lines[m], block.option)
    && (forall j | m < j < f :: AllSpace(lines[j]))
    && SpelledOpening(lines[f])
    && (forall j | f < j < c :: !Padded(lines[j], "```")) && (c < |lines| ==> Padded(lines[c], "```"))
    && block.line == f + 1 && block.code == Join(lines[f + 1..c], '\n')
  }

  /** A kind that is the one the line's spelling shows. */
  ghost predicate Shown(line: string, kind: Kind) {
    && (kind.Marker? ==> SpelledMarker(line, kind.option))
    && (!kind.Marker? ==> forall option :: !SpelledMarker(line, option))
    && (kind.FenceOpen? <==> SpelledOpening(line))
    && (kind.FenceClose? <==> Padded(line, "```"))
    && (kind.Blank? <==> AllSpace(line))
  }

  lemma KindIsShown(line: string)
    ensures Shown(line, KindOf(line))
  {
    KindDecidesTests(line);
    FenceIff(line);
    forall option
      ensures KindOf(line) == Marker(option) <==> SpelledMarker(line, option)
    {
      MarkerIff(line, option);
    }
  }

  /** A line is spelled as a marker for one option at most. */
  lemma OneOption(line: string, a: Option<string>, b: Option<string>)
    requires SpelledMarker(line, a) && SpelledMarker(line, b)
    ensures a == b
  {
    MarkerIff(line, a);
    MarkerIff(line, b);
  }

  lemma KindsAreShown(lines: seq<string>)
    ensures forall i | 0 <= i < |lines| :: Shown(lines[i], KindsOf(lines)[i])
  {
    forall i | 0 <= i < |lines|
      ensures Shown(lines[i], KindsOf(lines)[i])
    {
      KindIsShown(lines[i]);
    }
  }

  /** A span gives a block exactly when its lines spell it. */
  lemma SpelledIff(lines: seq<string>, kinds: seq<Kind>, span: Span, block: Block)
    requires |lines| == |kinds| && forall i | 0 <= i < |lines| :: Shown(lines[i], kinds[i])
    ensures SpelledBlock(lines, span, block) <==> IsBlockAt(kinds, span) && block == BlockOf(lines, kinds, span)
  {
    var Span(m, f, c) := span;
    if m < f < c <= |lines| {
      assert Shown(lines[m], kinds[m]) && Shown(lines[f], kinds[f]);
      if SpelledMarker(lines[m], block.option) && kinds[m].Marker? {
        OneOption(lines[m], block.option, kinds[m].option);
      }
      BetweenAreShown(lines, kinds, m, f, c);
    }
  }

  lemma BetweenAreShown(lines: seq<string>, kinds: seq<Kind>, m: nat, f: nat, c: nat)
    requires |lines| == |kinds| && forall i | 0 <= i < |lines| :: Shown(lines[i], kinds[i])
    requires m < f < c <= |lines|
    ensures (forall j | m < j < f :: AllSpace(lines[j])) <==> forall j | m < j < f :: kinds[j].Blank?
    ensures (forall j | f < j < c :: !Padded(lines[j], "```")) <==> forall j | f < j < c :: !kinds[j].FenceClose?
    ensures c < |lines| ==> (Padded(lines[c], "```") <==> kinds[c].FenceClose?)
  {
    assert forall j | m < j < f :: Shown(lines[j], kinds[j]);
    assert forall j | f < j < c :: Shown(lines[j], kinds[j]);
  }

  /** Some lines of the document spell the block. */
  ghost predicate Spelled(lines: seq<string>, block: Block) {
    exists span :: SpelledBlock(lines, span, block)
  }

  ghost predicate NoMarker(lines: seq<string>) {
    forall i, option | 0 <= i < |lines| :: !SpelledMarker(lines[i], option)
  }

  /** The marked blocks of a text, as its lines spell them; without a line that spells a marker there is none. */
  method ExtractBlocks(text: string) returns (blocks: seq<Block>)
    ensures Extracts(SplitLines(text), KindsOf(SplitLines(text)), blocks)
    ensures forall k | 0 <= k < |blocks| :: Spelled(SplitLines(text), blocks[k])
    ensures NoMarker(SplitLines(text)) ==> blocks == []
  {
    var lines := SplitLines(text);
    blocks := ScanBlocks(lines, KindsOf(lines));
    BlocksAreSpelled(lines, KindsOf(lines), blocks);
    NoMarkerNoBlock(lines, blocks);
  }

  lemma BlockIsSpelled(lines: seq<string>, kinds: seq<Kind>, span: Span)
    requires kinds == KindsOf(lines) && IsBlockAt(kinds, span)
    ensures Spelled(lines, BlockOf(lines, kinds, span))
  {
    KindsAreShown(lines);
    SpelledIff(lines, kinds, span, BlockOf(lines, kinds, span));
  }

  lemma BlocksAreSpelled(lines: seq<string>, kinds: seq<Kind>, blocks: seq<Block>)
    requires kinds == KindsOf(lines) && Extracts(lines, kinds, blocks)
    ensures forall k | 0 <= k < |blocks| :: Spelled(lines, blocks[k])
  {
    var spans :| MarkedBlocks(kinds, 0, spans) && blocks == BlocksOf(lines, kinds, spans);
    forall k | 0 <= k < |blocks|
      ensures Spelled(lines, blocks[k])
    {
      BlockIsSpelled(lines, kinds, spans[k]);
    }
  }

  lemma NoMarkerNoBlock(lines: seq<string>, blocks: seq<Block>)
    requires forall k | 0 <= k < |blocks| :: Spelled(lines, blocks[k])
    ensures NoMarker(lines) ==> blocks == []
  {
    if blocks != [] {
      assert Spelled(lines, blocks[0]);
      var span :| SpelledBlock(lines, span, blocks[0]);
      assert SpelledMarker(lines[span.marker], blocks[0].option);
    }
  }

  /** The code of a block of a text, split at its newlines, is the block's lines. */
  lemma CodeIsLines(text: string, span: Span)
    requires IsBlockAt(KindsOf(SplitLines(text)), span)
    ensures
      var lines := SplitLines(text);
      Split(BlockOf(lines, KindsOf(lines), span).code, '\n')
      == if span.close == span.fence + 1 then [""] else lines[span.fence + 1..span.close]
  {
    LinesHaveNoBreak(text);
    SplitOfBody(SplitLines(text)[span.fence + 1..span.close]);
  }

  lemma SplitOfBody(body: seq<string>)
    requires forall line | line in body :: '\n' !in line
    ensures Split(Join(body, '\n'), '\n') == if body == [] then [""] else body
  {
    if body != [] {
      SplitOfJoin(body, '\n');
    }
  }
}
