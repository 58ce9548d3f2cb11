/**
 Which lines a context read returns: before the match the nearest whole lines of the file that the window
 covers, behind it the lines that follow, all numbered consecutively and within the content budget.
 */
module ContextLines {
  import opened Wrappers
  import opened Bytes
  import opened Collections
  import opened QueryState
  import opened ContextSpec
  import PageSpec
  import ScanSpec
  import ContextFacts

  // ---------- lines as ranges of a file ----------

  predicate AtLineStart(data: seq<Byte>, i: nat) {
    i == 0 || (i <= |data| && data[i - 1] == LF)
  }

  predicate NoLineFeed(data: seq<Byte>, from: nat, to: nat)
    requires to <= |data|
  {
    forall i :: from <= i < to ==> data[i] != LF
  }

  /** The range is one whole line, without its line feed. */
  predicate WholeLine(data: seq<Byte>, r: Range) {
    && r.start <= r.end < |data| && data[r.end] == LF
    && AtLineStart(data, r.start) && NoLineFeed(data, r.start, r.end)
  }

  /** Whole lines, one behind the other, up to `end`. */
  ghost predicate RunOfLines(data: seq<Byte>, ranges: seq<Range>, end: nat) {
    && (forall i :: 0 <= i < |ranges| ==> WholeLine(data, ranges[i]))
    && (forall i :: 0 <= i < |ranges| - 1 ==> ranges[i + 1].start == ranges[i].end + 1)
    && (ranges != [] ==> ranges[|ranges| - 1].end + 1 == end)
  }

  lemma RunSnoc(data: seq<Byte>, ranges: seq<Range>, end: nat, next: Range)
    requires RunOfLines(data, ranges, end) && WholeLine(data, next)
    requires ranges != [] ==> next.start == end
    ensures RunOfLines(data, ranges + [next], next.end + 1)
  {
    hide WholeLine;
  }

  lemma RunNothing(data: seq<Byte>, end: nat)
    ensures RunOfLines(data, [], end)
  {
  }

  /** The ranges are whole lines from `from` on, and behind them no line ends. */
  lemma {:induction false} RangesAreLines(data: seq<Byte>, from: nat, to: nat)
    requires from <= to <= |data| && AtLineStart(data, from)
    ensures var ranges, behind := LineRanges(data, from, to), LineStart(data, from, to);
            && RunOfLines(data, ranges, behind) && AtLineStart(data, behind)
            && NoLineFeed(data, behind, to)
            && (if ranges == [] then behind == from else ranges[0].start == from)
  {
    hide RunOfLines, LineRanges, LineStart;
    if to == from {
      RangesStart(data, from);
      RunNothing(data, from);
    } else {
      RangesAreLines(data, from, to - 1);
      RangesStep(data, from, to);
      var start := LineStart(data, from, to - 1);
      if data[to - 1] == LF {
        RunSnoc(data, LineRanges(data, from, to - 1), start, Range(start, to - 1));
      }
    }
  }

  /** Ranges behind a line start do not depend on what stands before it. */
  lemma {:induction false} RangesSplit(data: seq<Byte>, from: nat, middle: nat, to: nat)
    requires from <= middle <= to <= |data| && (middle == from || data[middle - 1] == LF)
    ensures LineRanges(data, from, to) == LineRanges(data, from, middle) + LineRanges(data, middle, to)
    ensures LineStart(data, from, to) == LineStart(data, middle, to)
  {
    hide LineRanges, LineStart;
    RangesStart(data, middle);
    if to > middle {
      RangesSplit(data, from, middle, to - 1);
      RangesStep(data, from, to);
      RangesStep(data, middle, to);
    } else if middle > from {
      RangesStep(data, from, to);
    }
  }

  /** There are as many complete lines as line feeds. */
  lemma {:induction false} RangesCount(data: seq<Byte>, to: nat)
    requires to <= |data|
    ensures |LineRanges(data, 0, to)| == ScanSpec.NewlineCount(data[..to])
  {
    if to == 0 {
    } else {
      RangesCount(data, to - 1);
      assert data[..to] == data[..to - 1] + [data[to - 1]];
      NewlineSnoc(data[..to - 1], data[to - 1]);
    }
  }

  lemma {:induction false} NewlineSnoc(s: seq<Byte>, b: Byte)
    ensures ScanSpec.NewlineCount(s + [b]) == ScanSpec.NewlineCount(s) + if b == LF then 1 else 0
    decreases |s|
  {
    hide ScanSpec.NewlineCount, NewlineIndex;
    var n, more := NewlineIndex(s), s + [b];
    if n < |s| {
      assert NewlineIndex(more) == n by {
        assert forall i :: 0 <= i < n ==> more[i] == s[i];
        assert more[n] == LF;
      }
      assert more[n + 1..] == s[n + 1..] + [b];
      FirstFeed(s);
      FirstFeed(more);
      NewlineSnoc(s[n + 1..], b);
    } else {
      OneMore(s, b);
    }
  }

  lemma FirstFeed(s: seq<Byte>)
    ensures var n := NewlineIndex(s);
            ScanSpec.NewlineCount(s) == if n == |s| then 0 else 1 + ScanSpec.NewlineCount(s[n + 1..])
  {
    hide NewlineIndex;
  }

  lemma OneMore(s: seq<Byte>, b: Byte)
    requires NewlineIndex(s) == |s|
    ensures ScanSpec.NewlineCount(s) == 0 && ScanSpec.NewlineCount(s + [b]) == if b == LF then 1 else 0
  {
    hide ScanSpec.NewlineCount, NewlineIndex;
    var more := s + [b];
    FirstFeed(s);
    FirstFeed(more);
    FirstFeed([]);
    var m := NewlineIndex(more);
    assert more[|s|] == b && forall i :: 0 <= i < |s| ==> more[i] == s[i];
    if m < |more| {
      assert more[m + 1..] == [];
    }
  }

  // ---------- from the window to the file ----------

  function Shifted(r: Range, offset: nat): Range {
    Range(r.start + offset, r.end + offset)
  }

  ghost predicate AllShifted(inWindow: seq<Range>, inFile: seq<Range>, offset: nat) {
    |inWindow| == |inFile| && forall i :: 0 <= i < |inFile| ==> inFile[i] == Shifted(inWindow[i], offset)
  }

  lemma {:induction false} RangesShift(data: seq<Byte>, start: nat, end: nat, from: nat, to: nat)
    requires start <= end <= |data| && from <= to <= end - start
    ensures var window := data[start..end];
            && AllShifted(LineRanges(window, from, to), LineRanges(data, start + from, start + to), start)
            && LineStart(data, start + from, start + to) == start + LineStart(window, from, to)
  {
    hide LineRanges, LineStart;
    RangesStart(data, start + from);
    RangesStart(data[start..end], from);
    if to == from {
    } else {
      RangesShift(data, start, end, from, to - 1);
      RangesStep(data, start + from, start + to);
      RangesStep(data[start..end], from, to);
      assert data[start..end][to - 1] == data[start + to - 1];
    }
  }

  /** Ranges that lie in the file. */
  predicate Inside(data: seq<Byte>, ranges: seq<Range>) {
    forall i :: 0 <= i < |ranges| ==> ranges[i].start <= ranges[i].end <= |data|
  }

  lemma ShiftedInit(inWindow: seq<Range>, inFile: seq<Range>, offset: nat)
    requires AllShifted(inWindow, inFile, offset) && inFile != []
    ensures var last := |inFile| - 1;
            && |inWindow| == |inFile| && inFile[last] == Shifted(inWindow[last], offset)
            && AllShifted(inWindow[..last], inFile[..last], offset)
  {
  }

  lemma ShiftedInside(data: seq<Byte>, start: nat, end: nat, inWindow: seq<Range>, inFile: seq<Range>)
    requires start <= end <= |data| && Inside(data[start..end], inWindow) && AllShifted(inWindow, inFile, start)
    ensures Inside(data, inFile) && |inWindow| == |inFile|
  {
    forall i | 0 <= i < |inFile|
      ensures inFile[i].start <= inFile[i].end <= |data|
    {
      assert inFile[i] == Shifted(inWindow[i], start);
    }
  }

  lemma {:induction false} ShowShifted(data: seq<Byte>, start: nat, end: nat, inWindow: seq<Range>, inFile: seq<Range>,
                                       first: nat, maximum: nat)
    requires start <= end <= |data| && Inside(data[start..end], inWindow) && AllShifted(inWindow, inFile, start)
    ensures Inside(data, inFile) && ShowRanges(data[start..end], inWindow, first, maximum)
            == ShowRanges(data, inFile, first, maximum)
  {
    hide ContextLineFromBytes, AllShifted;
    ShiftedInside(data, start, end, inWindow, inFile);
    if inFile == [] {
    } else {
      var last, window := |inFile| - 1, data[start..end];
      ShiftedInit(inWindow, inFile, start);
      ShowShifted(data, start, end, inWindow[..last], inFile[..last], first, maximum);
      PartOfPart(data, start, end, inWindow[last].start, inWindow[last].end);
    }
  }

  lemma LastShifted(inWindow: seq<Range>, inFile: seq<Range>, offset: nat, count: nat)
    requires AllShifted(inWindow, inFile, offset)
    ensures AllShifted(Last(inWindow, count), Last(inFile, count), offset)
  {
  }

  // ---------- the lines before the match ----------

  /** The last `count` lines, and no more, begin inside the window. */
  predicate WindowHolds(all: seq<Range>, windowStart: nat, count: nat) {
    && count <= |all|
    && (forall i :: |all| - count <= i < |all| ==> windowStart <= all[i].start)
    && (count < |all| ==> all[|all| - count - 1].start < windowStart)
  }

  lemma FewerHeld(all: seq<Range>, windowStart: nat, count: nat)
    requires WindowHolds(all, windowStart, count)
    ensures count <= |all|
  {
  }

  /** The line that ends where the first whole line of the window begins, begins before the window. */
  lemma LineBeforeWindow(data: seq<Byte>, windowStart: nat, end: nat)
    requires 0 < windowStart < end <= |data| && data[end - 1] == LF
    ensures var fullStart := FullStart(data[windowStart..end], data[windowStart - 1] == LF);
            var before := LineRanges(data, 0, windowStart + fullStart);
            && windowStart + fullStart <= end && data[windowStart + fullStart - 1] == LF
            && before != [] && before[|before| - 1].start < windowStart
  {
    var window := data[windowStart..end];
    assert window[|window| - 1] == LF;
    var fullStart := FullStart(window, data[windowStart - 1] == LF);
    var to := windowStart + fullStart;
    assert data[to - 1] == LF;
    var before := LineRanges(data, 0, to);
    assert before[|before| - 1] == Range(LineStart(data, 0, to - 1), to - 1);
    forall j | windowStart - 1 <= j < to - 1
      ensures data[j] != LF
    {
      if j >= windowStart {
        assert window[j - windowStart] == data[j];
      }
    }
    StartsEarly(data, windowStart - 1, to - 1);
  }

  lemma {:induction false} StartsEarly(data: seq<Byte>, low: nat, i: nat)
    requires low <= i <= |data| && NoLineFeed(data, low, i)
    ensures LineStart(data, 0, i) <= low
  {
    if low == i {
    } else {
      StartsEarly(data, low, i - 1);
    }
  }

  /** The whole lines inside the window are the last lines before the match. */
  lemma WindowLines(data: seq<Byte>, windowStart: nat, end: nat)
    requires windowStart < end <= |data| && data[end - 1] == LF
    ensures var window := data[windowStart..end];
            var fullStart := FullStart(window, windowStart == 0 || data[windowStart - 1] == LF);
            var inside := LineRanges(data, windowStart + fullStart, end);
            var all := LineRanges(data, 0, end);
            && fullStart <= |window| && AllShifted(LineRanges(window, fullStart, |window|), inside, windowStart)
            && WindowHolds(all, windowStart, |inside|) && all[|all| - |inside|..] == inside
            && (windowStart == 0 <==> |inside| == |all|)
  {
    hide LineRanges, LineStart, AllShifted, FullStart;
    var fullStart := FullStart(data[windowStart..end], windowStart == 0 || data[windowStart - 1] == LF);
    if windowStart > 0 {
      LineBeforeWindow(data, windowStart, end);
      RangesSplit(data, 0, windowStart + fullStart, end);
    } else {
      AlignedStart(data[windowStart..end]);
    }
    RangesShift(data, windowStart, end, fullStart, end - windowStart);
  }

  lemma AlignedStart(window: seq<Byte>)
    ensures FullStart(window, true) == 0
  {
  }

  /** The whole lines before the match line. */
  function LinesBefore(data: seq<Byte>, reference: MatchReferenceData): seq<Range> {
    if reference.lineStartOffset <= |data| then LineRanges(data, 0, reference.lineStartOffset) else []
  }

  /** What is read before the match: the window that ends there, and one byte more when it does not begin the file. */
  function BytesBefore(reference: MatchReferenceData, requested: nat, limits: ContextReadLimits): nat {
    if requested == 0 || reference.lineStartOffset == 0 then 0
    else if reference.lineStartOffset <= limits.maxBeforeScanBytes then reference.lineStartOffset
    else limits.maxBeforeScanBytes + 1
  }

  /** What was found before the match. */
  predicate ExactlyBefore(data: seq<Byte>, reference: MatchReferenceData, requested: nat, limits: ContextReadLimits,
                          r: BeforeRead)
    requires Inside(data, LinesBefore(data, reference))
  {
    var all, k := LinesBefore(data, reference), |r.lines|;
    && k <= |all| && k <= requested && k <= reference.lineNumber
    && r.lines == ShowRanges(data, Last(all, k), reference.lineNumber - k, limits.maxLineBytes)
    && (r.truncated <==> k < Min(requested, |all|))
    && (r.truncated ==> all[|all| - k - 1].start < WindowStart(reference, limits))
    && r.bytesScanned == BytesBefore(reference, requested, limits)
  }

  lemma LinesBeforeInside(data: seq<Byte>, reference: MatchReferenceData)
    ensures Inside(data, LinesBefore(data, reference))
  {
  }

  /**
   The lines returned are the nearest whole lines before the match, whatever the window's size and alignment;
   they are marked truncated exactly when lines that were asked for and exist are missing, and then the next
   one begins outside the window.
   */
  lemma BeforeIsExact(data: seq<Byte>, reference: MatchReferenceData, requested: nat, limits: ContextReadLimits)
    requires limits.maxBeforeScanBytes > 0 && reference.lineStartOffset <= |data|
    requires ReadBefore(data, reference, requested, limits).Ok?
    ensures Inside(data, LinesBefore(data, reference))
    ensures ExactlyBefore(data, reference, requested, limits, ReadBefore(data, reference, requested, limits).value)
  {
    hide LineRanges, ShowRanges, ContextLineFromBytes, FullStart, AllShifted, Last, BeforeInWindow, ExactlyBefore;
    LinesBeforeInside(data, reference);
    if requested == 0 || reference.lineStartOffset == 0 {
      NothingBefore(data, reference, requested, limits);
    } else {
      WindowIsExact(data, reference, requested, limits);
    }
  }

  lemma NothingBefore(data: seq<Byte>, reference: MatchReferenceData, requested: nat, limits: ContextReadLimits)
    requires reference.lineStartOffset <= |data| && (requested == 0 || reference.lineStartOffset == 0)
    ensures Inside(data, LinesBefore(data, reference))
    ensures ExactlyBefore(data, reference, requested, limits, BeforeRead([], 0, false))
  {
    hide LineRanges, ContextLineFromBytes;
    LinesBeforeInside(data, reference);
    NoRanges(data);
  }

  lemma WindowIsExact(data: seq<Byte>, reference: MatchReferenceData, requested: nat, limits: ContextReadLimits)
    requires limits.maxBeforeScanBytes > 0 && 0 < reference.lineStartOffset <= |data| && requested > 0
    requires ReadBefore(data, reference, requested, limits).Ok?
    ensures Inside(data, LinesBefore(data, reference))
    ensures ExactlyBefore(data, reference, requested, limits, ReadBefore(data, reference, requested, limits).value)
  {
    hide LineRanges, ShowRanges, ContextLineFromBytes, FullStart, AllShifted, Last, WindowHolds;
    LinesBeforeInside(data, reference);
    var end, windowStart := reference.lineStartOffset, WindowStart(reference, limits);
    var all, window := LinesBefore(data, reference), data[windowStart..end];
    assert window[|window| - 1] == data[end - 1];
    WindowLines(data, windowStart, end);
    var fullStart := FullStart(window, windowStart == 0 || data[windowStart - 1] == LF);
    var inWindow, inside := LineRanges(window, fullStart, |window|), LineRanges(data, windowStart + fullStart, end);
    SameCount(inWindow, inside, windowStart);
    NextOutside(all, windowStart, |inside|);
    ShownFromFile(data, windowStart, end, inWindow, inside, all, requested,
                  reference.lineNumber - Min(|inside|, requested), limits.maxLineBytes);
  }

  lemma NextOutside(all: seq<Range>, windowStart: nat, count: nat)
    requires WindowHolds(all, windowStart, count)
    ensures count <= |all| && (count < |all| ==> all[|all| - count - 1].start < windowStart)
  {
  }

  lemma ShownFromFile(data: seq<Byte>, windowStart: nat, end: nat, inWindow: seq<Range>, inside: seq<Range>,
                      all: seq<Range>, requested: nat, first: nat, maximum: nat)
    requires windowStart <= end <= |data| && Inside(data[windowStart..end], inWindow)
             && AllShifted(inWindow, inside, windowStart)
    requires |inside| <= |all| && all[|all| - |inside|..] == inside
    ensures var k := Min(|inside|, requested);
            && Inside(data, Last(all, k))
            && ShowRanges(data[windowStart..end], Last(inWindow, requested), first, maximum)
               == ShowRanges(data, Last(all, k), first, maximum)
  {
    hide ShowRanges, AllShifted;
    var k := Min(|inside|, requested);
    LastInside(data[windowStart..end], inWindow, requested);
    LastShifted(inWindow, inside, windowStart, requested);
    ShowShifted(data, windowStart, end, Last(inWindow, requested), Last(inside, requested), first, maximum);
    assert Last(all, k) == Last(inside, requested);
  }

  lemma LastInside(data: seq<Byte>, ranges: seq<Range>, count: nat)
    requires Inside(data, ranges)
    ensures Inside(data, Last(ranges, count))
  {
  }

  lemma NoRanges(data: seq<Byte>)
    ensures LineRanges(data, 0, 0) == []
  {
  }

  lemma SameCount(inWindow: seq<Range>, inFile: seq<Range>, offset: nat)
    requires AllShifted(inWindow, inFile, offset)
    ensures |inWindow| == |inFile|
  {
  }

  /** A match line that begins a line and is numbered rightly has readable lines before it. */
  lemma BeforeIsReadable(data: seq<Byte>, reference: MatchReferenceData, requested: nat, limits: ContextReadLimits)
    requires limits.maxBeforeScanBytes > 0 && AtLineStart(data, reference.lineStartOffset)
    requires reference.lineStartOffset <= |data| && |LinesBefore(data, reference)| <= reference.lineNumber
    ensures ReadBefore(data, reference, requested, limits).Ok?
  {
    hide LineRanges, ShowRanges, ContextLineFromBytes, FullStart, AllShifted, Last, WindowHolds, BeforeInWindow;
    var end, windowStart := reference.lineStartOffset, WindowStart(reference, limits);
    if requested > 0 && end > 0 {
      var window := data[windowStart..end];
      assert window[|window| - 1] == data[end - 1];
      var aligned := windowStart == 0 || data[windowStart - 1] == LF;
      WindowLines(data, windowStart, end);
      var fullStart := FullStart(window, aligned);
      SameCount(LineRanges(window, fullStart, |window|), LineRanges(data, windowStart + fullStart, end), windowStart);
      FewerHeld(LinesBefore(data, reference), windowStart, |LineRanges(data, windowStart + fullStart, end)|);
      WindowIsReadable(window, aligned, windowStart, reference.lineNumber, requested, limits.maxLineBytes);
    }
  }

  lemma WindowIsReadable(window: seq<Byte>, aligned: bool, windowStart: nat, lineNumber: nat, requested: nat,
                         maximum: nat)
    requires window != [] && window[|window| - 1] == LF
    requires |LineRanges(window, FullStart(window, aligned), |window|)| <= lineNumber
    ensures BeforeInWindow(window, aligned, windowStart, lineNumber, requested, maximum).Ok?
  {
    hide LineRanges, ShowRanges, FullStart;
  }

  // ---------- is the stored line start still a line start? ----------

  /** A stored start that no longer begins a line is noticed exactly when lines before it are asked for. */
  lemma StartRechecked(data: seq<Byte>, reference: MatchReferenceData, requested: nat, limits: ContextReadLimits)
    requires limits.maxBeforeScanBytes > 0 && !AtLineStart(data, reference.lineStartOffset)
    ensures ReadBefore(data, reference, requested, limits).Ok? <==> requested == 0
    ensures requested > 0 ==> ReadBefore(data, reference, requested, limits) == Err(FileChanged)
  {
    hide LineRanges, ShowRanges, FullStart;
    var end, windowStart := reference.lineStartOffset, WindowStart(reference, limits);
    if requested > 0 && end <= |data| {
      var window := data[windowStart..end];
      assert window[|window| - 1] == data[end - 1];
    }
  }

  /** So without lines before it a line that was joined with its predecessor is still shown as the match line. */
  lemma JoinedLineIsShown()
    ensures var data: seq<Byte> := [120, 97, LF];
            var reference := MatchReferenceData("s", "f", [[97]], FileIdentity(0, 0), 3, 2, 1, 1, [97], true);
            var limits := FromServiceLimits(PageSpec.LimitsConfig(1, 8, 1, 8, 8, 1));
            && reference.Valid() && !AtLineStart(data, reference.lineStartOffset)
            && ReadContext(data, 3, reference, 0, 0, limits).Ok?
            && ReadContext(data, 3, reference, 1, 0, limits) == Err(FileChanged)
  {
    hide IntoContextLine, AnyTruncated;
    var data: seq<Byte> := [120, 97, LF];
    var reference := MatchReferenceData("s", "f", [[97]], FileIdentity(0, 0), 3, 2, 1, 1, [97], true);
    var limits := FromServiceLimits(PageSpec.LimitsConfig(1, 8, 1, 8, 8, 1));
    assert ScanSpec.CharCount([97]) == 1 by { assert [97 as Byte][1..] == []; }
    assert reference.Valid();
    StartRechecked(data, reference, 1, limits);
    var rest := From(data, 1);
    assert rest == [97, LF];
    SecondByteEnds(rest);
    assert ReadLine(rest, 8, 8, SpecOf(reference)).Ok?;
    ContextFacts.ShownFits(ReadLine(rest, 8, 8, SpecOf(reference)).value.read.line, 2, true, 8, NeedleOf(reference));
  }

  lemma SecondByteEnds(rest: seq<Byte>)
    requires rest == [97, LF]
    ensures NewlineIndex(rest) == 1
  {
    assert rest[1..] == [LF];
  }
}
