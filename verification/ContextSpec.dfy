/**
 What a bounded context read returns: lines before the match from a window that ends at the match line, the
 match line with its keyword checked again, the lines behind it, and a content budget that favours the match.
 */
module ContextSpec {
  import opened Wrappers
  import opened Bytes
  import opened QueryState
  import ScanSpec
  import PageSpec
  import Utf8

  const DEFAULT_CONTEXT_SCAN_BYTES: nat := 4 * 1024 * 1024
  const MAX_CONTEXT_SCAN_BYTES: nat := 64 * 1024 * 1024
  const MAX_CONTEXT_READ_BUFFER_BYTES: nat := 1024 * 1024

  datatype LimitProblem = LineBytes | ContentBudget | ScanBytes | ReadBuffer | KeywordDoesNotFit | PreviewExceedsBudget

  datatype ContextReadError =
    | InvalidRequest | InvalidLimits(problem: LimitProblem) | FileChanged | MatchOutsideScanBudget | MatchLineScanLimit
    | Cancelled | DeadlineExceeded | CounterOverflow | InvalidReference | Io

  datatype ContextReadLimits = ContextReadLimits(
    maxLinesPerSide: nat,
    maxLineBytes: nat,
    maxReturnedContentBytes: nat,
    maxBeforeScanBytes: nat,
    maxForwardScanBytes: nat,
    readBufferBytes: nat)
  {
    function Validate(before: nat, after: nat): Option<ContextReadError> {
      if maxLinesPerSide == 0 || before > maxLinesPerSide || after > maxLinesPerSide then Some(InvalidRequest)
      else if maxLineBytes == 0 then Some(InvalidLimits(LineBytes))
      else if maxReturnedContentBytes < maxLineBytes then Some(InvalidLimits(ContentBudget))
      else if || maxBeforeScanBytes == 0 || maxBeforeScanBytes > MAX_CONTEXT_SCAN_BYTES
              || maxForwardScanBytes == 0 || maxForwardScanBytes > MAX_CONTEXT_SCAN_BYTES then
        Some(InvalidLimits(ScanBytes))
      else if readBufferBytes == 0 || readBufferBytes > MAX_CONTEXT_READ_BUFFER_BYTES then
        Some(InvalidLimits(ReadBuffer))
      else None
    }
  }

  function FromServiceLimits(limits: PageSpec.LimitsConfig): ContextReadLimits {
    var scanBytes := Max(1, Min(limits.maxScanBytesPerPage, DEFAULT_CONTEXT_SCAN_BYTES));
    ContextReadLimits(limits.maxContextLinesPerSide, limits.maxLineBytes, limits.maxReturnedContentBytes, scanBytes,
                      scanBytes, 64 * 1024)
  }

  datatype ContextLine = ContextLine(
    lineNumber: nat,
    content: seq<Byte>,
    contentTruncated: bool,
    contentLossy: bool,
    originalLineBytes: nat,
    isMatchLine: bool)

  datatype ContextReadOutcome = ContextReadOutcome(
    startLine: nat,
    endLine: nat,
    lines: seq<ContextLine>,
    beforeTruncated: bool,
    afterTruncated: bool,
    returnedContentBytes: nat,
    bytesScanned: nat,
    truncated: bool)

  // ---------- showing one line ----------

  /** What a shown text must keep. */
  datatype Needle = Needle(keyword: seq<Byte>, caseSensitive: bool)

  /** The first char boundary at or behind `at`. */
  function CeilBoundary(s: seq<Byte>, at: nat): (boundary: nat)
    requires at <= |s|
    ensures at <= boundary <= |s| && Utf8.CharBoundary(s, boundary)
    ensures forall i :: at <= i < boundary ==> !Utf8.CharBoundary(s, i)
    decreases |s| - at
  {
    if Utf8.CharBoundary(s, at) then at else CeilBoundary(s, at + 1)
  }

  datatype Crop = Crop(start: nat, requiredEnd: nat)

  /** Where a text that is too long is wanted to begin: around the keyword when it is found. */
  function CropAround(text: seq<Byte>, maximum: nat, needle: Option<Needle>): Crop {
    if needle.None? then Crop(0, 0)
    else
      match FindFolded(text, needle.value.keyword, needle.value.caseSensitive)
      case None => Crop(0, 0)
      case Some(at) =>
        Crop(ScanSpec.PreviewStart(at, |needle.value.keyword|, maximum), at + |needle.value.keyword|)
  }

  function CropStart(text: seq<Byte>, maximum: nat, needle: Option<Needle>): nat {
    var crop := CropAround(text, maximum, needle);
    if crop.requiredEnd > crop.start + maximum then SaturatingSub(crop.requiredEnd, maximum) else crop.start
  }

  /** A text of at most `maximum` bytes, and whether it had to be cut. */
  function BoundedText(text: seq<Byte>, maximum: nat, needle: Option<Needle>): (seq<Byte>, bool) {
    if |text| <= maximum then (text, false)
    else
      var start := CeilBoundary(text, Min(CropStart(text, maximum, needle), |text|));
      (text[start..PageSpec.FloorBoundary(text, Min(start + maximum, |text|))], true)
  }

  /** The kept part of a line: its bytes from `previewStart` on. */
  datatype RawLine = RawLine(preview: seq<Byte>, previewStart: nat, originalLineBytes: nat)

  function IntoContextLine(raw: RawLine, lineNumber: nat, isMatchLine: bool, maximum: nat, needle: Option<Needle>)
    : ContextLine
  {
    var coversLineEnd := raw.previewStart + |raw.preview| == raw.originalLineBytes;
    var shown := ScanSpec.StripCarriageReturn(raw.preview, coversLineEnd);
    var (content, cut) := BoundedText(Utf8.Lossy(shown), maximum, needle);
    ContextLine(lineNumber, content, raw.previewStart > 0 || !coversLineEnd || cut, !Utf8.Valid(shown),
                raw.originalLineBytes, isMatchLine)
  }

  /** A line before the match is held in memory as a whole. */
  function ContextLineFromBytes(lineNumber: nat, bytes: seq<Byte>, maximum: nat): ContextLine {
    var display := ScanSpec.StripCarriageReturn(bytes, true);
    var preview := display[..Min(|display|, maximum)];
    var (content, cut) := BoundedText(Utf8.Lossy(preview), maximum, None);
    ContextLine(lineNumber, content, |preview| < |display| || cut, !Utf8.Valid(preview), |bytes|, false)
  }

  // ---------- lines before the match ----------

  datatype Range = Range(start: nat, end: nat)

  /** Where the line that holds index `i` begins, when nothing before `from` is looked at. */
  function LineStart(s: seq<Byte>, from: nat, i: nat): (start: nat)
    requires i <= |s|
    ensures from <= i ==> from <= start <= i
  {
    if i <= from then from else if s[i - 1] == LF then i else LineStart(s, from, i - 1)
  }

  /** The complete lines of `s[from..to]`, each without its line feed. */
  function LineRanges(s: seq<Byte>, from: nat, to: nat): (ranges: seq<Range>)
    requires to <= |s|
    ensures |ranges| <= to
    ensures forall i :: 0 <= i < |ranges| ==> from <= ranges[i].start <= ranges[i].end < to
  {
    if to <= from then []
    else LineRanges(s, from, to - 1) + if s[to - 1] == LF then [Range(LineStart(s, from, to - 1), to - 1)] else []
  }

  /** One byte more ends a line or does not. */
  lemma RangesStep(data: seq<Byte>, from: nat, to: nat)
    requires from < to <= |data|
    ensures data[to - 1] == LF ==>
              && LineRanges(data, from, to)
                 == LineRanges(data, from, to - 1) + [Range(LineStart(data, from, to - 1), to - 1)]
              && LineStart(data, from, to) == to
    ensures data[to - 1] != LF ==>
              LineRanges(data, from, to) == LineRanges(data, from, to - 1)
              && LineStart(data, from, to) == LineStart(data, from, to - 1)
  {
  }

  lemma RangesStart(data: seq<Byte>, from: nat)
    requires from <= |data|
    ensures LineRanges(data, from, from) == [] && LineStart(data, from, from) == from
  {
  }

  function Last<T>(s: seq<T>, count: nat): (r: seq<T>)
    ensures |r| == Min(|s|, count)
    ensures forall i :: 0 <= i < |r| ==> r[i] == s[|s| - |r| + i]
  {
    if |s| <= count then s else s[|s| - count..]
  }

  /** The first line that begins inside the window. */
  function FullStart(window: seq<Byte>, aligned: bool): (start: nat)
    ensures start <= |window|
  {
    if aligned then 0 else Min(NewlineIndex(window) + 1, |window|)
  }

  function ShowRanges(window: seq<Byte>, ranges: seq<Range>, firstNumber: nat, maximum: nat): (lines: seq<ContextLine>)
    requires forall i :: 0 <= i < |ranges| ==> ranges[i].start <= ranges[i].end <= |window|
    ensures |lines| == |ranges|
  {
    if ranges == [] then []
    else
      var last := |ranges| - 1;
      ShowRanges(window, ranges[..last], firstNumber, maximum)
      + [ContextLineFromBytes(firstNumber + last, window[ranges[last].start..ranges[last].end], maximum)]
  }

  datatype BeforeRead = BeforeRead(lines: seq<ContextLine>, bytesScanned: nat, truncated: bool)

  /** The window before the match line, once it has been read. */
  function BeforeInWindow(window: seq<Byte>, aligned: bool, windowStart: nat, lineNumber: nat, requested: nat,
                          maximum: nat)
    : Result<BeforeRead, ContextReadError>
  {
    if window == [] || window[|window| - 1] != LF then Err(FileChanged)
    else
      var ranges := Last(LineRanges(window, FullStart(window, aligned), |window|), requested);
      if lineNumber < |ranges| then Err(FileChanged)
      else
        Ok(BeforeRead(ShowRanges(window, ranges, lineNumber - |ranges|, maximum),
                      |window| + (if windowStart == 0 then 0 else 1),
                      |ranges| < requested && windowStart > 0))
  }

  function WindowStart(reference: MatchReferenceData, limits: ContextReadLimits): nat {
    reference.lineStartOffset - Min(reference.lineStartOffset, limits.maxBeforeScanBytes)
  }

  function ReadBefore(data: seq<Byte>, reference: MatchReferenceData, requested: nat, limits: ContextReadLimits)
    : Result<BeforeRead, ContextReadError>
  {
    if requested == 0 || reference.lineStartOffset == 0 then Ok(BeforeRead([], 0, false))
    else if |data| < reference.lineStartOffset then Err(FileChanged)
    else
      var start := WindowStart(reference, limits);
      BeforeInWindow(data[start..reference.lineStartOffset], start == 0 || data[start - 1] == LF, start,
                     reference.lineNumber, requested, limits.maxLineBytes)
  }

  // ---------- the match line and the lines behind it ----------

  datatype MatchSpec = MatchSpec(relativeOffset: nat, keyword: seq<Byte>, caseSensitive: bool) {
    function End(): nat {
      relativeOffset + |keyword|
    }

    function PreviewStart(maxLineBytes: nat): nat {
      ScanSpec.PreviewStart(relativeOffset, |keyword|, maxLineBytes)
    }

    /** The bytes seen so far are the keyword's where the keyword should be. */
    predicate Agrees(line: seq<Byte>) {
      forall i :: relativeOffset <= i < End() && i < |line| ==>
        Fold(line[i], caseSensitive) == Fold(keyword[i - relativeOffset], caseSensitive)
    }
  }

  datatype LineRead = Complete(line: RawLine) | Eof | BudgetExhausted

  datatype LineStep = LineStep(read: LineRead, consumed: nat)

  function StartOf(spec: Option<MatchSpec>, maxLineBytes: nat): nat {
    if spec.None? then 0 else spec.value.PreviewStart(maxLineBytes)
  }

  predicate SpecAgrees(spec: Option<MatchSpec>, line: seq<Byte>) {
    spec.Some? ==> spec.value.Agrees(line)
  }

  /** The bytes of the line that the preview keeps. */
  function Visible(line: seq<Byte>, start: nat, width: nat): seq<Byte> {
    if start >= |line| then [] else line[start..Min(start + width, |line|)]
  }

  function CheckSpec(spec: Option<MatchSpec>, maxLineBytes: nat): Option<ContextReadError> {
    if spec.None? then None
    else if spec.value.PreviewStart(maxLineBytes) + maxLineBytes >= U64_LIMIT then
      Some(ContextReadError.CounterOverflow)
    else if spec.value.keyword == [] || |spec.value.keyword| > maxLineBytes then Some(InvalidLimits(KeywordDoesNotFit))
    else None
  }

  /** One line of `rest`, of which at most `budget` bytes may be read. */
  function ReadLine(rest: seq<Byte>, budget: nat, maxLineBytes: nat, spec: Option<MatchSpec>)
    : (r: Result<LineStep, ContextReadError>)
    ensures r.Ok? ==> r.value.consumed <= budget && r.value.consumed <= |rest| + budget
    ensures r.Ok? && r.value.read.Complete? ==> 0 < r.value.consumed <= |rest|
  {
    var n := NewlineIndex(rest);
    if CheckSpec(spec, maxLineBytes).Some? then Err(CheckSpec(spec, maxLineBytes).value)
    else if !SpecAgrees(spec, rest[..Min(n, budget)]) then Err(FileChanged)
    else if budget <= n then
      if spec.Some? && budget < spec.value.End() then Err(MatchOutsideScanBudget)
      else Ok(LineStep(BudgetExhausted, budget))
    else if rest == [] then Ok(LineStep(Eof, 0))
    else if spec.Some? && n < spec.value.End() then Err(FileChanged)
    else
      var start := StartOf(spec, maxLineBytes);
      Ok(LineStep(Complete(RawLine(Visible(rest[..n], start, maxLineBytes), start, n)), Min(n + 1, |rest|)))
  }

  datatype AfterRead = AfterRead(lines: seq<ContextLine>, bytesScanned: nat, truncated: bool)

  /** At most `count` lines, the first of them numbered `number`. */
  function ReadAfter(rest: seq<Byte>, budget: nat, count: nat, number: nat, maxLineBytes: nat)
    : Result<AfterRead, ContextReadError>
    decreases count
  {
    if count == 0 then Ok(AfterRead([], 0, false))
    else
      var step := ReadLine(rest, budget, maxLineBytes, None);
      if step.Err? then Err(step.error)
      else
        match step.value.read
        case Eof => Ok(AfterRead([], 0, false))
        case BudgetExhausted => Ok(AfterRead([], step.value.consumed, true))
        case Complete(raw) =>
          if number >= U64_LIMIT then Err(ContextReadError.CounterOverflow)
          else
            var used := step.value.consumed;
            match ReadAfter(From(rest, used), budget - used, count - 1, number + 1, maxLineBytes)
            case Err(e) => Err(e)
            case Ok(more) =>
              Ok(AfterRead([IntoContextLine(raw, number, false, maxLineBytes, None)] + more.lines,
                           used + more.bytesScanned, more.truncated))
  }

  datatype ForwardRead = ForwardRead(matchLine: ContextLine, after: AfterRead, bytesScanned: nat)

  function SpecOf(reference: MatchReferenceData): Option<MatchSpec>
    requires reference.Valid()
  {
    Some(MatchSpec(reference.matchByteOffset - reference.lineStartOffset, reference.keyword, reference.caseSensitive))
  }

  function NeedleOf(reference: MatchReferenceData): Option<Needle> {
    Some(Needle(reference.keyword, reference.caseSensitive))
  }

  function RestFrom(data: seq<Byte>, offset: nat): seq<Byte> {
    From(data, Min(offset, |data|))
  }

  function ReadForward(data: seq<Byte>, reference: MatchReferenceData, requested: nat, limits: ContextReadLimits)
    : Result<ForwardRead, ContextReadError>
    requires reference.Valid()
  {
    var rest := RestFrom(data, reference.lineStartOffset);
    var step := ReadLine(rest, limits.maxForwardScanBytes, limits.maxLineBytes, SpecOf(reference));
    if step.Err? then Err(step.error)
    else
      match step.value.read
      case Eof => Err(FileChanged)
      case BudgetExhausted => Err(MatchLineScanLimit)
      case Complete(raw) =>
        var used := step.value.consumed;
        match ReadAfter(From(rest, used), limits.maxForwardScanBytes - used, requested, reference.lineNumber + 1,
                        limits.maxLineBytes)
        case Err(e) => Err(e)
        case Ok(after) =>
          Ok(ForwardRead(IntoContextLine(raw, reference.lineNumber, true, limits.maxLineBytes, NeedleOf(reference)),
                         after, used + after.bytesScanned))
  }

  // ---------- the content budget ----------

  function ContentBytes(lines: seq<ContextLine>): nat {
    if lines == [] then 0 else ContentBytes(lines[..|lines| - 1]) + |lines[|lines| - 1].content|
  }

  lemma {:induction false} ContentAppend(a: seq<ContextLine>, b: seq<ContextLine>)
    ensures ContentBytes(a + b) == ContentBytes(a) + ContentBytes(b)
  {
    if b == [] {
      assert a + b == a;
    } else {
      ContentAppend(a, b[..|b| - 1]);
      assert (a + b)[..|a + b| - 1] == a + b[..|b| - 1];
    }
  }

  /** The nearest lines before the match that fit, `used` bytes being taken already. */
  function KeptBefore(lines: seq<ContextLine>, used: nat, maximum: nat): seq<ContextLine> {
    if lines == [] then []
    else
      var last := lines[|lines| - 1];
      if used + |last.content| > maximum then []
      else KeptBefore(lines[..|lines| - 1], used + |last.content|, maximum) + [last]
  }

  /** The nearest lines behind the match that fit. */
  function KeptAfter(lines: seq<ContextLine>, used: nat, maximum: nat): seq<ContextLine>
    decreases |lines|
  {
    if lines == [] || used + |lines[0].content| > maximum then []
    else [lines[0]] + KeptAfter(lines[1..], used + |lines[0].content|, maximum)
  }

  predicate AnyTruncated(lines: seq<ContextLine>) {
    exists i :: 0 <= i < |lines| && lines[i].contentTruncated
  }

  function Assemble(before: BeforeRead, forward: ForwardRead, maximum: nat)
    : Result<ContextReadOutcome, ContextReadError>
  {
    var matchBytes := |forward.matchLine.content|;
    if matchBytes > maximum then Err(InvalidLimits(PreviewExceedsBudget))
    else
      var keptBefore := KeptBefore(before.lines, matchBytes, maximum);
      var used := matchBytes + ContentBytes(keptBefore);
      var keptAfter := KeptAfter(forward.after.lines, used, maximum);
      var lines := keptBefore + [forward.matchLine] + keptAfter;
      var beforeTruncated := before.truncated || |keptBefore| < |before.lines|;
      var afterTruncated := forward.after.truncated || |keptAfter| < |forward.after.lines|;
      Ok(ContextReadOutcome(lines[0].lineNumber, lines[|lines| - 1].lineNumber, lines, beforeTruncated, afterTruncated,
                            used + ContentBytes(keptAfter), before.bytesScanned + forward.bytesScanned,
                            beforeTruncated || afterTruncated || AnyTruncated(lines)))
  }

  /** The whole read, of a file that holds `data` and was `fileSize` bytes long when it was opened. */
  function ReadContext(data: seq<Byte>, fileSize: nat, reference: MatchReferenceData, beforeLines: nat, afterLines: nat,
                       limits: ContextReadLimits): Result<ContextReadOutcome, ContextReadError>
  {
    if limits.Validate(beforeLines, afterLines).Some? then Err(limits.Validate(beforeLines, afterLines).value)
    else if !reference.Valid() then Err(InvalidReference)
    else if reference.fileSizeAtMatch > fileSize || reference.MatchEndOffset() > fileSize then Err(FileChanged)
    else
      match ReadBefore(data, reference, beforeLines, limits)
      case Err(e) => Err(e)
      case Ok(before) =>
        match ReadForward(data, reference, afterLines, limits)
        case Err(e) => Err(e)
        case Ok(forward) => Assemble(before, forward, limits.maxReturnedContentBytes)
  }
}
