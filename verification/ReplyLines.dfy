/**
 Every line of a context reply is the line of the file that has its number.
 */
module ReplyLines {
  import opened Wrappers
  import opened Bytes
  import opened Collections
  import opened QueryState
  import opened ContextSpec
  import opened ContextLines
  import opened ContextOutcome
  import ChunkedScan
  import ContextTruncation
  import MatchFacts
  import ScanSpec
  import Utf8

  // ---------- numbered lines ----------

  lemma {:induction false} NthBehind(s: seq<Byte>, i: nat, j: nat)
    ensures NthLine(s, i + j) == NthLine(BehindLines(s, i), j)
    decreases i
  {
    hide BehindFirst, NthLine;
    if i == 0 {
    } else if s == [] {
      NothingBehindNothing(i);
      NothingBehindNothing(i + j);
      NothingBehind([], i + j);
      NothingBehind([], j);
      NothingBehindNothing(j);
    } else {
      NthNext(s, i + j);
      NthBehind(BehindFirst(s), i - 1, j);
    }
  }

  /** Behind whole lines stands what follows them. */
  lemma {:induction false} BehindWhole(prefix: seq<Byte>, rest: seq<Byte>)
    requires ChunkedScan.WholeLines(prefix)
    ensures BehindLines(prefix + rest, ScanSpec.NewlineCount(prefix)) == rest
    decreases |prefix|
  {
    hide NewlineIndex, ScanSpec.NewlineCount, BehindFirst;
    FirstFeed(prefix);
    if prefix == [] {
      assert prefix + rest == rest;
    } else {
      ChunkedScan.FirstLineOf(prefix, rest);
      var n := NewlineIndex(prefix);
      BehindFeed(prefix + rest, n);
      BehindWhole(prefix[n + 1..], rest);
    }
  }

  lemma BehindFeed(s: seq<Byte>, n: nat)
    requires n == NewlineIndex(s) < |s|
    ensures BehindFirst(s) == s[n + 1..]
  {
    hide NewlineIndex;
  }

  /** The line that begins at a line start has as number the line feeds before it. */
  lemma LineAtStart(data: seq<Byte>, start: nat)
    requires AtLineStart(data, start) && start <= |data|
    ensures BehindLines(data, ScanSpec.NewlineCount(data[..start])) == data[start..]
  {
    hide ScanSpec.NewlineCount, BehindLines;
    var prefix, rest := data[..start], data[start..];
    assert data == prefix + rest;
    assert start > 0 ==> prefix[start - 1] == LF;
    BehindWhole(prefix, rest);
  }

  /** A whole line is the line that the line feeds before it count to. */
  lemma WholeLineNumber(data: seq<Byte>, r: Range)
    requires WholeLine(data, r)
    ensures NthLine(data, ScanSpec.NewlineCount(data[..r.start])) == Some(data[r.start..r.end])
  {
    hide NewlineIndex, NthLine, BehindLines, ScanSpec.NewlineCount, BehindFirst;
    LineAtStart(data, r.start);
    FirstOfRest(data, ScanSpec.NewlineCount(data[..r.start]), data[r.start..]);
    FeedAt(data, r);
    var rest := data[r.start..];
    assert rest[..r.end - r.start] == data[r.start..r.end];
  }

  /** The line with index `count` is the first line of what stands behind `count` lines. */
  lemma FirstOfRest(data: seq<Byte>, count: nat, rest: seq<Byte>)
    requires BehindLines(data, count) == rest && rest != []
    ensures NthLine(data, count) == Some(rest[..NewlineIndex(rest)])
  {
    hide NewlineIndex, NthLine, BehindLines, BehindFirst;
    NthBehind(data, count, 0);
    NthNext(rest, 0);
  }

  lemma FeedAt(data: seq<Byte>, r: Range)
    requires WholeLine(data, r)
    ensures NewlineIndex(data[r.start..]) == r.end - r.start
  {
    hide NewlineIndex;
    var rest := data[r.start..];
    assert rest[r.end - r.start] == LF;
    assert forall i :: 0 <= i < r.end - r.start ==> rest[i] == data[r.start + i];
  }

  /** The lines before an offset are numbered from the beginning of the file. */
  lemma {:induction false} RangesNumbered(data: seq<Byte>, to: nat, i: nat)
    requires to <= |data| && i < |LineRanges(data, 0, to)|
    ensures WholeLine(data, LineRanges(data, 0, to)[i])
    ensures NthLine(data, i) == Some(data[LineRanges(data, 0, to)[i].start..LineRanges(data, 0, to)[i].end])
  {
    hide LineRanges, LineStart, NthLine, WholeLine, RunOfLines;
    RangesStart(data, 0);
    RangesStep(data, 0, to);
    if i < |LineRanges(data, 0, to - 1)| {
      RangesNumbered(data, to - 1, i);
    } else {
      RangesAreLines(data, 0, to);
      IsWhole(data, LineRanges(data, 0, to), LineStart(data, 0, to), i);
      LastIsNumbered(data, to);
      WholeLineNumber(data, LineRanges(data, 0, to)[i]);
    }
  }

  lemma IsWhole(data: seq<Byte>, ranges: seq<Range>, end: nat, i: nat)
    requires RunOfLines(data, ranges, end) && i < |ranges|
    ensures WholeLine(data, ranges[i])
  {
    hide WholeLine;
  }

  /** As many lines as there are line feeds before a line that ends here. */
  lemma LastIsNumbered(data: seq<Byte>, to: nat)
    requires 0 < to <= |data| && data[to - 1] == LF
    ensures ScanSpec.NewlineCount(data[..LineStart(data, 0, to - 1)]) == |LineRanges(data, 0, to - 1)|
  {
    hide LineRanges, LineStart;
    var start := LineStart(data, 0, to - 1);
    RangesAreLines(data, 0, to - 1);
    RangesSplit(data, 0, start, to - 1);
    NoRangeWithin(data, start, to - 1);
    RangesCount(data, start);
  }

  lemma {:induction false} NoRangeWithin(data: seq<Byte>, from: nat, to: nat)
    requires from <= to <= |data| && NoLineFeed(data, from, to)
    ensures LineRanges(data, from, to) == []
  {
    if from == to {
    } else {
      NoRangeWithin(data, from, to - 1);
    }
  }

  lemma {:induction false} ShowRangesAt(window: seq<Byte>, ranges: seq<Range>, first: nat, maximum: nat, i: nat)
    requires Inside(window, ranges) && i < |ranges|
    ensures |ShowRanges(window, ranges, first, maximum)| == |ranges|
    ensures ShowRanges(window, ranges, first, maximum)[i]
         == ContextLineFromBytes(first + i, window[ranges[i].start..ranges[i].end], maximum)
  {
    hide ContextLineFromBytes;
    if i == |ranges| - 1 {
    } else {
      ShowRangesAt(window, ranges[..|ranges| - 1], first, maximum, i);
    }
  }

  // ---------- the lines of a reply ----------

  /** The match line as it is shown: a window around the keyword. */
  function MatchRendering(line: seq<Byte>, reference: MatchReferenceData, maximum: nat): ContextLine
    requires reference.Valid()
  {
    var start := SpecOf(reference).value.PreviewStart(maximum);
    IntoContextLine(RawLine(Visible(line, start, maximum), start, |line|), reference.lineNumber, true, maximum,
                    NeedleOf(reference))
  }

  /** How the line with this number is shown. */
  function Rendering(line: seq<Byte>, number: nat, reference: MatchReferenceData, maximum: nat): ContextLine
    requires reference.Valid()
  {
    if number < reference.lineNumber then ContextLineFromBytes(number, line, maximum)
    else if number == reference.lineNumber then MatchRendering(line, reference, maximum)
    else ShownAfter(line, number, maximum)
  }

  /** The shown line is the line of the file that has its number. */
  ghost predicate IsLineOf(shown: ContextLine, data: seq<Byte>, reference: MatchReferenceData, maximum: nat)
    requires reference.Valid()
  {
    && shown.lineNumber > 0 && NthLine(data, shown.lineNumber - 1).Some?
    && shown == Rendering(NthLine(data, shown.lineNumber - 1).value, shown.lineNumber, reference, maximum)
  }

  ghost predicate AreLinesOf(lines: seq<ContextLine>, data: seq<Byte>, reference: MatchReferenceData, maximum: nat)
    requires reference.Valid()
  {
    forall i :: 0 <= i < |lines| ==> IsLineOf(lines[i], data, reference, maximum)
  }

  /** The stored start begins a line, and the stored number is that line's. */
  predicate PointsToLine(data: seq<Byte>, reference: MatchReferenceData) {
    && reference.lineStartOffset <= |data| && AtLineStart(data, reference.lineStartOffset)
    && reference.lineNumber == 1 + ScanSpec.NewlineCount(data[..reference.lineStartOffset])
  }

  /** The match line of a forward read is the line at its start, previewed around the keyword. */
  lemma MatchLineOf(data: seq<Byte>, reference: MatchReferenceData, requested: nat, context: ContextReadLimits)
    requires reference.Valid() && reference.lineStartOffset <= |data|
    requires ReadForward(data, reference, requested, context).Ok?
    ensures ReadForward(data, reference, requested, context).value.matchLine
         == MatchRendering(MatchFacts.LineFrom(data, reference.lineStartOffset), reference, context.maxLineBytes)
  {
    hide IntoContextLine, Visible, ReadAfter, NewlineIndex, MatchReferenceData.Valid;
  }

  lemma BeforeAreLines(data: seq<Byte>, reference: MatchReferenceData, requested: nat, limits: ContextReadLimits)
    requires reference.Valid() && PointsToLine(data, reference) && limits.maxBeforeScanBytes > 0
    requires ReadBefore(data, reference, requested, limits).Ok?
    ensures AreLinesOf(ReadBefore(data, reference, requested, limits).value.lines, data, reference, limits.maxLineBytes)
  {
    hide ReadBefore, LineRanges, ShowRanges, ContextLineFromBytes, MatchReferenceData.Valid, NthLine, MatchRendering,
         ShownAfter, WholeLine, Last;
    BeforeIsExact(data, reference, requested, limits);
    RangesCount(data, reference.lineStartOffset);
    var all, lines := LinesBefore(data, reference), ReadBefore(data, reference, requested, limits).value.lines;
    var k := |lines|;
    forall i | 0 <= i < k
      ensures IsLineOf(lines[i], data, reference, limits.maxLineBytes)
    {
      LastInside(data, all, k);
      ShowRangesAt(data, Last(all, k), reference.lineNumber - k, limits.maxLineBytes, i);
      RangesNumbered(data, reference.lineStartOffset, |all| - k + i);
      BeforeLineNumber(reference.lineNumber - k + i, data[Last(all, k)[i].start..Last(all, k)[i].end],
                       limits.maxLineBytes);
    }
  }

  lemma BeforeLineNumber(number: nat, line: seq<Byte>, maximum: nat)
    ensures ContextLineFromBytes(number, line, maximum).lineNumber == number
  {
    hide BoundedText, Utf8.Lossy, Utf8.Valid;
  }

  lemma AfterAreLines(data: seq<Byte>, reference: MatchReferenceData, lines: seq<ContextLine>, maximum: nat)
    requires reference.Valid() && PointsToLine(data, reference)
    requires AreNextLines(lines, BehindFirst(RestFrom(data, reference.lineStartOffset)), reference.lineNumber + 1,
                          maximum)
    ensures AreLinesOf(lines, data, reference, maximum)
  {
    hide ShownAfter, NthLine, BehindFirst, MatchReferenceData.Valid, MatchRendering, ContextLineFromBytes;
    var rest := RestFrom(data, reference.lineStartOffset);
    LineAtStart(data, reference.lineStartOffset);
    assert rest == data[reference.lineStartOffset..];
    ContextTruncation.BehindOneMore(data, reference.lineNumber - 1);
    AfterNumbers(lines, BehindFirst(rest), reference.lineNumber + 1, maximum);
    forall i | 0 <= i < |lines|
      ensures IsLineOf(lines[i], data, reference, maximum)
    {
      NthBehind(data, reference.lineNumber, i);
    }
  }

  lemma MatchIsLine(data: seq<Byte>, reference: MatchReferenceData, requested: nat, limits: ContextReadLimits)
    requires reference.Valid() && PointsToLine(data, reference)
    requires ReadForward(data, reference, requested, limits).Ok?
    ensures IsLineOf(ReadForward(data, reference, requested, limits).value.matchLine, data, reference,
                     limits.maxLineBytes)
  {
    hide ReadForward, NthLine, NewlineIndex, MatchReferenceData.Valid, ShownAfter, ContextLineFromBytes, BehindLines,
         BehindFirst, ScanSpec.NewlineCount, MatchRendering;
    MatchLineOf(data, reference, requested, limits);
    ForwardParts(data, reference, requested, limits);
    LineAtStart(data, reference.lineStartOffset);
    var rest := RestFrom(data, reference.lineStartOffset);
    assert rest == data[reference.lineStartOffset..] == From(data, reference.lineStartOffset);
    FirstOfRest(data, reference.lineNumber - 1, rest);
    RenderedNumber(MatchFacts.LineFrom(data, reference.lineStartOffset), reference, limits.maxLineBytes);
  }

  lemma RenderedNumber(line: seq<Byte>, reference: MatchReferenceData, maximum: nat)
    requires reference.Valid()
    ensures MatchRendering(line, reference, maximum).lineNumber == reference.lineNumber
  {
    hide MatchReferenceData.Valid, Visible;
    var start := SpecOf(reference).value.PreviewStart(maximum);
    MatchLineNumber(RawLine(Visible(line, start, maximum), start, |line|), reference.lineNumber, maximum,
                    NeedleOf(reference));
  }

  /**
   End to end: when the reference points to a line of the file, every line of the reply, before, at and behind the
   match, is the line of the file that has its number, shown as lines at that place are shown.
   */
  lemma ReplyShowsFile(data: seq<Byte>, fileSize: nat, reference: MatchReferenceData, beforeLines: nat,
                       afterLines: nat, limits: ContextReadLimits)
    requires Utf8.Valid(reference.keyword)
    requires ReadContext(data, fileSize, reference, beforeLines, afterLines, limits).Ok?
    requires PointsToLine(data, reference)
    ensures reference.Valid()
    ensures AreLinesOf(ReadContext(data, fileSize, reference, beforeLines, afterLines, limits).value.lines, data,
                       reference, limits.maxLineBytes)
  {
    hide ReadContext, ReadBefore, ReadForward, ReadAfter, MatchReferenceData.Valid, Utf8.Valid, IsLineOf, AroundMatch,
         AreNextLines, PointsToLine, NoMoreBefore, NoMoreAfter, AnyTruncated, BehindFirst, BehindLines, EndsWithin;
    ContextTruncation.ContextIsAssembled(data, fileSize, reference, beforeLines, afterLines, limits);
    var at, _ := ReplyIsExact(data, fileSize, reference, beforeLines, afterLines, limits);
    var outcome := ReadContext(data, fileSize, reference, beforeLines, afterLines, limits).value;
    var before, forward := ReadBefore(data, reference, beforeLines, limits).value.lines,
        ReadForward(data, reference, afterLines, limits).value;
    SomeWindow(data, fileSize, reference, beforeLines, afterLines, limits);
    BeforeAreLines(data, reference, beforeLines, limits);
    MatchIsLine(data, reference, afterLines, limits);
    NextLinesRead(data, reference, afterLines, limits);
    AfterAreLines(data, reference, forward.after.lines, limits.maxLineBytes);
    AllAreLines(outcome.lines, at, before, forward, data, reference, limits.maxLineBytes);
  }

  lemma SomeWindow(data: seq<Byte>, fileSize: nat, reference: MatchReferenceData, beforeLines: nat, afterLines: nat,
                   limits: ContextReadLimits)
    requires ReadContext(data, fileSize, reference, beforeLines, afterLines, limits).Ok?
    ensures limits.maxBeforeScanBytes > 0
  {
    hide ReadBefore, ReadForward, Assemble, MatchReferenceData.Valid;
  }

  lemma NextLinesRead(data: seq<Byte>, reference: MatchReferenceData, requested: nat, limits: ContextReadLimits)
    requires reference.Valid() && ReadForward(data, reference, requested, limits).Ok?
    ensures AreNextLines(ReadForward(data, reference, requested, limits).value.after.lines,
                         BehindFirst(RestFrom(data, reference.lineStartOffset)), reference.lineNumber + 1,
                         limits.maxLineBytes)
  {
    hide ReadForward, ReadAfter, MatchReferenceData.Valid, AreNextLines, BehindFirst, BehindLines, EndsWithin,
         NewlineIndex;
    ForwardParts(data, reference, requested, limits);
    var rest := RestFrom(data, reference.lineStartOffset);
    AfterIsExact(BehindFirst(rest), limits.maxForwardScanBytes - (|rest| - |BehindFirst(rest)|), requested,
                 reference.lineNumber + 1, limits.maxLineBytes);
  }

  lemma AllAreLines(lines: seq<ContextLine>, at: nat, before: seq<ContextLine>, forward: ForwardRead, data: seq<Byte>,
                    reference: MatchReferenceData, maximum: nat)
    requires reference.Valid() && at < |lines|
    requires EndOf(lines[..at], before) && lines[at] == forward.matchLine && lines[at + 1..] <= forward.after.lines
    requires AreLinesOf(before, data, reference, maximum) && IsLineOf(forward.matchLine, data, reference, maximum)
    requires AreLinesOf(forward.after.lines, data, reference, maximum)
    ensures AreLinesOf(lines, data, reference, maximum)
  {
    hide IsLineOf, MatchReferenceData.Valid;
    forall i | 0 <= i < |lines|
      ensures IsLineOf(lines[i], data, reference, maximum)
    {
      if i < at {
        assert lines[i] == lines[..at][i] == before[|before| - at + i];
      } else if i > at {
        assert lines[i] == lines[at + 1..][i - at - 1] == forward.after.lines[i - at - 1];
      }
    }
  }
}
