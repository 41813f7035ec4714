/** Writing marked blocks into a document, and reading them back. */
module DocRender {
  import opened Text
  import opened DocLines
  import opened DocBlocks

  /* ---------------------------------------------------------- the document */

  /** A line of text and what the parser takes it for. */
  datatype Line = Line(text: string, kind: Kind)

  function Texts(doc: seq<Line>): seq<string> {
    seq(|doc|, i requires 0 <= i < |doc| => doc[i].text)
  }

  function Kinds(doc: seq<Line>): seq<Kind> {
    seq(|doc|, i requires 0 <= i < |doc| => doc[i].kind)
  }

  /** Prose, then a marked block: marker, blank lines, fence, body, fence. */
  datatype Segment = Segment(
    filler: seq<Line>, marker: Line, blanks: seq<Line>, open: Line, body: seq<Line>, close: Line)
  {
    predicate Valid() {
      && (forall k | 0 <= k < |filler| :: !filler[k].kind.Marker?)
      && marker.kind.Marker?
      && (forall k | 0 <= k < |blanks| :: blanks[k].kind.Blank?)
      && open.kind.FenceOpen?
      && (forall k | 0 <= k < |body| :: !body[k].kind.FenceClose?)
      && close.kind.FenceClose?
    }

    function Lines(): seq<Line> {
      filler + [marker] + blanks + [open] + body + [close]
    }

    /** Where the segment's block lies when its first line has index `i`. */
    function SpanFrom(i: nat): Span {
      var m := i + |filler|;
      var f := m + 1 + |blanks|;
      Span(m, f, f + 1 + |body|)
    }
  }

  function Render(segments: seq<Segment>, tail: seq<Line>): seq<Line> {
    if segments == [] then tail else segments[0].Lines() + Render(segments[1..], tail)
  }

  /** The blocks the author wrote, with the line numbers of their fences. */
  function Written(segments: seq<Segment>, i: nat): seq<Block>
    requires forall s | s in segments :: s.Valid()
  {
    if segments == [] then []
    else [WrittenBlock(segments[0], i)] + Written(segments[1..], i + |segments[0].Lines()|)
  }

  function WrittenBlock(s: Segment, i: nat): Block
    requires s.Valid()
  {
    Block(i + |s.filler| + |s.blanks| + 2, Join(Texts(s.body), '\n'), s.marker.kind.option)
  }

  /** The segment stands in the document at index `i`. */
  predicate StandsAt(doc: seq<Line>, i: nat, s: Segment) {
    i + |s.Lines()| <= |doc| && forall j | 0 <= j < |s.Lines()| :: doc[i + j] == s.Lines()[j]
  }

  lemma SegmentIsBlock(doc: seq<Line>, i: nat, s: Segment)
    requires s.Valid() && StandsAt(doc, i, s)
    ensures forall j | i <= j < i + |s.filler| :: !doc[j].kind.Marker?
    ensures IsBlockAt(Kinds(doc), s.SpanFrom(i))
  {
    var span := s.SpanFrom(i);
    var lines := s.Lines();
    forall j | i <= j < span.marker
      ensures !doc[j].kind.Marker?
    {
      assert doc[i + (j - i)] == lines[j - i] == s.filler[j - i];
    }
    forall j | span.marker < j < span.fence
      ensures doc[j].kind.Blank?
    {
      assert doc[i + (j - i)] == lines[j - i] == s.blanks[j - span.marker - 1];
    }
    forall j | span.fence < j < span.close
      ensures !doc[j].kind.FenceClose?
    {
      assert doc[i + (j - i)] == lines[j - i] == s.body[j - span.fence - 1];
    }
    assert doc[i + |s.filler|] == lines[|s.filler|] == s.marker;
    assert doc[i + (span.fence - i)] == lines[span.fence - i] == s.open;
    assert doc[i + (span.close - i)] == lines[span.close - i] == s.close;
  }

  lemma SegmentGivesBlock(doc: seq<Line>, i: nat, s: Segment)
    requires s.Valid() && StandsAt(doc, i, s) && IsBlockAt(Kinds(doc), s.SpanFrom(i))
    ensures BlockOf(Texts(doc), Kinds(doc), s.SpanFrom(i)) == WrittenBlock(s, i)
  {
    var span := s.SpanFrom(i);
    var lines := s.Lines();
    assert doc[i + |s.filler|] == lines[|s.filler|] == s.marker;
    forall k | 0 <= k < |s.body|
      ensures Texts(doc)[span.fence + 1..span.close][k] == s.body[k].text
    {
      var j := span.fence + 1 + k;
      assert doc[i + (j - i)] == lines[j - i] == s.body[k];
    }
    assert Texts(doc)[span.fence + 1..span.close] == Texts(s.body);
  }

  lemma {:induction false} FillerPasses(kinds: seq<Kind>, i: nat, n: nat, spans: seq<Span>)
    requires i + n <= |kinds| && MarkedBefore(kinds, i, spans)
    requires forall j | i <= j < i + n :: !kinds[j].Marker?
    ensures MarkedBefore(kinds, i + n, spans)
    decreases n
  {
    if n > 0 {
      PassLine(kinds, i, spans);
      FillerPasses(kinds, i + 1, n - 1, spans);
    }
  }

  /** Passing a segment adds the block written there and nothing else. */
  lemma SegmentPasses(doc: seq<Line>, i: nat, s: Segment, spans: seq<Span>)
    requires s.Valid() && StandsAt(doc, i, s) && MarkedBefore(Kinds(doc), i, spans)
    ensures MarkedBefore(Kinds(doc), i + |s.Lines()|, spans + [s.SpanFrom(i)])
    ensures BlocksOf(Texts(doc), Kinds(doc), spans + [s.SpanFrom(i)])
      == BlocksOf(Texts(doc), Kinds(doc), spans) + [WrittenBlock(s, i)]
  {
    SegmentIsBlock(doc, i, s);
    SegmentGivesBlock(doc, i, s);
    FillerPasses(Kinds(doc), i, |s.filler|, spans);
    PassBlock(Texts(doc), Kinds(doc), spans, s.SpanFrom(i), WrittenBlock(s, i));
  }

  lemma FirstStands(doc: seq<Line>, i: nat, s: Segment, rest: seq<Line>)
    requires i <= |doc| && doc[i..] == s.Lines() + rest
    ensures StandsAt(doc, i, s) && doc[i + |s.Lines()|..] == rest
  {
    forall j | 0 <= j < |s.Lines()|
      ensures doc[i + j] == s.Lines()[j]
    {
      assert doc[i..][j] == doc[i + j];
    }
    assert doc[i + |s.Lines()|..] == doc[i..][|s.Lines()|..];
  }

  /** Prose to the end adds no block. */
  lemma TailPasses(doc: seq<Line>, i: nat, spans: seq<Span>)
    requires i <= |doc| && MarkedBefore(Kinds(doc), i, spans)
    requires forall j | i <= j < |doc| :: !doc[j].kind.Marker?
    ensures MarkedBlocks(Kinds(doc), 0, spans)
  {
    FillerPasses(Kinds(doc), i, |doc| - i, spans);
    AllPassed(Kinds(doc), |doc|, spans);
  }

  lemma WrittenFirst(done: seq<Block>, segments: seq<Segment>, i: nat, next: nat)
    requires segments != [] && (forall s | s in segments :: s.Valid()) && next == i + |segments[0].Lines()|
    ensures (done + [WrittenBlock(segments[0], i)]) + Written(segments[1..], next) == done + Written(segments, i)
  {
  }

  /** The spans where the segments' blocks lie are the document's marked blocks. */
  lemma {:induction false} RenderedIsMarked(doc: seq<Line>, i: nat, segments: seq<Segment>, tail: seq<Line>,
      spans: seq<Span>) returns (all: seq<Span>)
    requires i <= |doc| && doc[i..] == Render(segments, tail)
    requires forall s | s in segments :: s.Valid()
    requires forall k | 0 <= k < |tail| :: !tail[k].kind.Marker?
    requires MarkedBefore(Kinds(doc), i, spans)
    ensures MarkedBlocks(Kinds(doc), 0, all)
    ensures BlocksOf(Texts(doc), Kinds(doc), all) == BlocksOf(Texts(doc), Kinds(doc), spans) + Written(segments, i)
    decreases |segments|
  {
    if segments == [] {
      forall j | i <= j < |doc|
        ensures !doc[j].kind.Marker?
      {
        assert doc[i..][j - i] == doc[j];
      }
      TailPasses(doc, i, spans);
      all := spans;
    } else {
      var s, next := segments[0], i + |segments[0].Lines()|;
      FirstStands(doc, i, s, Render(segments[1..], tail));
      SegmentPasses(doc, i, s, spans);
      all := RenderedIsMarked(doc, next, segments[1..], tail, spans + [s.SpanFrom(i)]);
      WrittenFirst(BlocksOf(Texts(doc), Kinds(doc), spans), segments, i, next);
    }
  }

  /** The kinds in the document are the ones the parser sees. */
  predicate Honest(doc: seq<Line>) {
    Kinds(doc) == KindsOf(Texts(doc))
  }

  /** Extracting from the text of a rendered document, however its lines end, gives back the blocks written into it. */
  lemma RoundTrip(segments: seq<Segment>, tail: seq<Line>, doc: seq<Line>, lines: seq<string>, ends: seq<string>,
      last: string, blocks: seq<Block>)
    requires forall s | s in segments :: s.Valid()
    requires forall k | 0 <= k < |tail| :: !tail[k].kind.Marker?
    requires doc == Render(segments, tail) && Honest(doc)
    requires Separate(lines, ends, last) && Texts(doc) == lines + if last == "" then [] else [last]
    requires
      var text := LinesText(lines, ends, last);
      Extracts(SplitLines(text), KindsOf(SplitLines(text)), blocks)
    ensures blocks == Written(segments, 0)
  {
    SplitOfLinesText(lines, ends, last);
    assert doc[0..] == doc;
    var all := RenderedIsMarked(doc, 0, segments, tail, []);
    assert Extracts(Texts(doc), Kinds(doc), Written(segments, 0));
    ExtractsOne(Texts(doc), Kinds(doc), blocks, Written(segments, 0));
  }

  /** Two blocks have the same code exactly if their bodies are the same, or one is empty and one an empty line. */
  lemma CodeDeterminesBody(s: Segment, t: Segment, i: nat, j: nat)
    requires s.Valid() && t.Valid()
    requires forall k | 0 <= k < |s.body| :: NoBreak(s.body[k].text)
    requires forall k | 0 <= k < |t.body| :: NoBreak(t.body[k].text)
    ensures
      var a, b := Texts(s.body), Texts(t.body);
      WrittenBlock(s, i).code == WrittenBlock(t, j).code <==>
      a == b || (a == [] && b == [""]) || (a == [""] && b == [])
  {
    NoBreakNoNewline(Texts(s.body));
    NoBreakNoNewline(Texts(t.body));
    JoinDetermines(Texts(s.body), Texts(t.body), '\n');
  }

  lemma NoBreakNoNewline(lines: seq<string>)
    requires forall k | 0 <= k < |lines| :: NoBreak(lines[k])
    ensures forall line | line in lines :: '\n' !in line
  {
    assert BREAKS[0] == '\n';
  }
}
