/**
 When a context read is refused: which limits are accepted, what the service's configuration makes of them, and that
 a read whose match line fits the scan budget succeeds exactly when the file still holds what the reference says.
 */
module ContextChecks {
  import opened Wrappers
  import opened Bytes
  import opened QueryState
  import opened ContextSpec
  import ContextFacts
  import ContextLines
  import ContextOutcome
  import PageSpec
  import Utf8

  // ---------- limits ----------

  /** The bound that an error is about. */
  predicate Within(limits: ContextReadLimits, before: nat, after: nat, error: ContextReadError) {
    match error
    case InvalidRequest => limits.maxLinesPerSide > 0 && Max(before, after) <= limits.maxLinesPerSide
    case InvalidLimits(LineBytes) => limits.maxLineBytes > 0
    case InvalidLimits(ContentBudget) => limits.maxLineBytes <= limits.maxReturnedContentBytes
    case InvalidLimits(ScanBytes) =>
      && 0 < limits.maxBeforeScanBytes <= 64 * 1024 * 1024
      && 0 < limits.maxForwardScanBytes <= 64 * 1024 * 1024
    case InvalidLimits(ReadBuffer) => 0 < limits.readBufferBytes <= 1024 * 1024
    case _ => true
  }

  /** Limits are accepted exactly when they keep every bound, and an error names a bound they do not keep. */
  lemma LimitsAreExact(limits: ContextReadLimits, before: nat, after: nat)
    ensures match limits.Validate(before, after)
            case None => forall error :: Within(limits, before, after, error)
            case Some(error) => !Within(limits, before, after, error)
  {
  }

  /**
   The limits of a valid configuration: its own bounds on lines and content, and to each side at most 4 MiB of what a
   page may scan. They are accepted for every request of no more lines than configured.
   */
  lemma ServiceLimits(limits: PageSpec.LimitsConfig, before: nat, after: nat)
    requires limits.Valid()
    ensures FromServiceLimits(limits) == ContextReadLimits(
              maxLinesPerSide := limits.maxContextLinesPerSide,
              maxLineBytes := limits.maxLineBytes,
              maxReturnedContentBytes := limits.maxReturnedContentBytes,
              maxBeforeScanBytes := Min(limits.maxScanBytesPerPage, 4 * 1024 * 1024),
              maxForwardScanBytes := Min(limits.maxScanBytesPerPage, 4 * 1024 * 1024),
              readBufferBytes := 64 * 1024)
    ensures FromServiceLimits(limits).Validate(before, after)
            == if Max(before, after) <= limits.maxContextLinesPerSide then None else Some(InvalidRequest)
  {
  }

  // ---------- the match line ----------

  /** No counter of the read can leave 64 bits. */
  predicate CountersFit(reference: MatchReferenceData, afterLines: nat, limits: ContextReadLimits) {
    && reference.matchByteOffset + limits.maxLineBytes < U64_LIMIT
    && reference.lineNumber + 1 + afterLines <= U64_LIMIT
  }

  /** The line that begins at the stored start. */
  function StoredLine(data: seq<Byte>, reference: MatchReferenceData): seq<Byte> {
    var rest := RestFrom(data, reference.lineStartOffset);
    rest[..NewlineIndex(rest)]
  }

  /** The keyword still stands in the stored line at the stored offset. */
  predicate KeywordStands(data: seq<Byte>, reference: MatchReferenceData) {
    reference.lineStartOffset <= reference.matchByteOffset
    && OccursAt(StoredLine(data, reference), reference.keyword, reference.caseSensitive,
                reference.matchByteOffset - reference.lineStartOffset)
  }

  /** A match line within the scan budget is accepted exactly when the keyword still stands in it. */
  lemma MatchRechecked(data: seq<Byte>, reference: MatchReferenceData, requested: nat, limits: ContextReadLimits)
    requires reference.Valid() && |reference.keyword| <= limits.maxLineBytes
    requires CountersFit(reference, requested, limits)
    requires |StoredLine(data, reference)| < limits.maxForwardScanBytes
    ensures ReadForward(data, reference, requested, limits).Ok? <==> KeywordStands(data, reference)
    ensures ReadForward(data, reference, requested, limits).Err? ==>
              ReadForward(data, reference, requested, limits).error == FileChanged
  {
    hide ReadAfter, IntoContextLine, Visible, NewlineIndex, OccursAt, MatchSpec.Agrees, ValidKeyword,
         ValidRelativePath;
    NotEmpty(reference);
    var rest, spec := RestFrom(data, reference.lineStartOffset), SpecOf(reference).value;
    var n := NewlineIndex(rest);
    assert rest[..Min(n, limits.maxForwardScanBytes)] == rest[..n];
    if spec.End() <= n {
      ContextFacts.AgreementIsOccurrence(rest[..n], spec);
    } else {
      ContextFacts.OccursOutside(rest[..n], reference.keyword, reference.caseSensitive, spec.relativeOffset);
    }
    var step := ReadLine(rest, limits.maxForwardScanBytes, limits.maxLineBytes, Some(spec));
    if step.Ok? && step.value.read.Complete? {
      ContextOutcome.AfterErrors(From(rest, step.value.consumed), limits.maxForwardScanBytes - step.value.consumed,
                                 requested, reference.lineNumber + 1, limits.maxLineBytes);
    }
  }

  lemma NotEmpty(reference: MatchReferenceData)
    requires reference.Valid()
    ensures reference.keyword != []
  {
  }

  // ---------- the lines before ----------

  /** The stored line number leaves room for the lines that the window holds and that were asked for. */
  ghost predicate NumberLeavesRoom(data: seq<Byte>, reference: MatchReferenceData, requested: nat,
                                   limits: ContextReadLimits)
  {
    forall count: nat ::
      ContextLines.WindowHolds(ContextLines.LinesBefore(data, reference), WindowStart(reference, limits), count) ==>
        Min(count, requested) <= reference.lineNumber
  }

  lemma BeforeRechecked(data: seq<Byte>, reference: MatchReferenceData, requested: nat, limits: ContextReadLimits)
    requires limits.maxBeforeScanBytes > 0
    ensures ReadBefore(data, reference, requested, limits).Ok?
       <==> requested == 0
            || ( && ContextLines.AtLineStart(data, reference.lineStartOffset)
                 && NumberLeavesRoom(data, reference, requested, limits))
    ensures ReadBefore(data, reference, requested, limits).Err? ==>
              ReadBefore(data, reference, requested, limits).error == FileChanged
  {
    hide LineRanges, ShowRanges, FullStart, ContextLines.WindowHolds, ContextLines.AllShifted;
    if !ContextLines.AtLineStart(data, reference.lineStartOffset) {
      ContextLines.StartRechecked(data, reference, requested, limits);
    } else if requested > 0 && reference.lineStartOffset > 0 {
      WindowRechecked(data, reference, requested, limits);
    } else {
      NothingHeld(data, reference, requested, limits);
    }
  }

  lemma NothingHeld(data: seq<Byte>, reference: MatchReferenceData, requested: nat, limits: ContextReadLimits)
    requires requested == 0 || reference.lineStartOffset == 0
    ensures NumberLeavesRoom(data, reference, requested, limits)
  {
    hide LineRanges;
    ContextLines.NoRanges(data);
  }

  lemma WindowRechecked(data: seq<Byte>, reference: MatchReferenceData, requested: nat, limits: ContextReadLimits)
    requires limits.maxBeforeScanBytes > 0 && requested > 0
    requires 0 < reference.lineStartOffset <= |data| && data[reference.lineStartOffset - 1] == LF
    ensures ReadBefore(data, reference, requested, limits).Ok?
       <==> NumberLeavesRoom(data, reference, requested, limits)
    ensures ReadBefore(data, reference, requested, limits).Err? ==>
              ReadBefore(data, reference, requested, limits).error == FileChanged
  {
    hide LineRanges, ShowRanges, ContextLines.WindowHolds, ContextLines.AllShifted;
    var end, windowStart := reference.lineStartOffset, WindowStart(reference, limits);
    var window := data[windowStart..end];
    assert window[|window| - 1] == data[end - 1];
    ContextLines.WindowLines(data, windowStart, end);
    var fullStart := FullStart(window, windowStart == 0 || data[windowStart - 1] == LF);
    var inWindow, inside := LineRanges(window, fullStart, |window|), LineRanges(data, windowStart + fullStart, end);
    ContextLines.SameCount(inWindow, inside, windowStart);
    var all := ContextLines.LinesBefore(data, reference);
    forall count: nat | ContextLines.WindowHolds(all, windowStart, count)
      ensures count == |inside|
    {
      HeldOnce(all, windowStart, count, |inside|);
    }
  }

  lemma HeldOnce(all: seq<Range>, windowStart: nat, a: nat, b: nat)
    requires ContextLines.WindowHolds(all, windowStart, a) && ContextLines.WindowHolds(all, windowStart, b)
    ensures a == b
  {
  }

  // ---------- the whole read ----------

  /** The file is at least as long as the reference says. */
  predicate LongEnough(fileSize: nat, reference: MatchReferenceData) {
    reference.fileSizeAtMatch <= fileSize && reference.matchByteOffset + |reference.keyword| <= fileSize
  }

  /**
   With acceptable limits, a valid reference and a match line within the scan budget the read succeeds exactly when
   the file is long enough, the lines before the match are where they were when they are asked for, and the keyword
   still stands at its offset; otherwise the file is reported as changed.
   */
  lemma ReadSucceedsExactly(data: seq<Byte>, fileSize: nat, reference: MatchReferenceData, beforeLines: nat,
                            afterLines: nat, limits: ContextReadLimits)
    requires limits.Validate(beforeLines, afterLines).None? && reference.Valid()
    requires |reference.keyword| <= limits.maxLineBytes && CountersFit(reference, afterLines, limits)
    requires |StoredLine(data, reference)| < limits.maxForwardScanBytes
    requires Utf8.Valid(reference.keyword)
    ensures var r := ReadContext(data, fileSize, reference, beforeLines, afterLines, limits);
            && (r.Ok? <==>
                  && LongEnough(fileSize, reference) && KeywordStands(data, reference)
                  && (beforeLines == 0
                      || ( && ContextLines.AtLineStart(data, reference.lineStartOffset)
                           && NumberLeavesRoom(data, reference, beforeLines, limits))))
            && (r.Err? ==> r.error == FileChanged)
  {
    hide ReadBefore, ReadForward, KeywordStands, NumberLeavesRoom, KeptBefore, KeptAfter, AnyTruncated, ContentBytes,
         MatchReferenceData.Valid;
    BeforeRechecked(data, reference, beforeLines, limits);
    MatchRechecked(data, reference, afterLines, limits);
    ContextOutcome.MatchAlwaysFits(data, fileSize, reference, beforeLines, afterLines, limits);
  }

  /** The requests that are refused before the file is looked at, in this order. */
  lemma RefusedAtOnce(data: seq<Byte>, fileSize: nat, reference: MatchReferenceData, beforeLines: nat,
                      afterLines: nat, limits: ContextReadLimits)
    ensures var r := ReadContext(data, fileSize, reference, beforeLines, afterLines, limits);
            if limits.Validate(beforeLines, afterLines).Some? then
              r == Err(limits.Validate(beforeLines, afterLines).value)
            else if !reference.Valid() then r == Err(InvalidReference)
            else !LongEnough(fileSize, reference) ==> r == Err(FileChanged)
  {
    hide ReadBefore, ReadForward, MatchReferenceData.Valid, Assemble, ContextReadLimits.Validate;
  }
}
