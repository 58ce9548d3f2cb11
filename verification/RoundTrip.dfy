/**
 From a search result to its context: a reference built by a page can be resolved in every file that extends the
 snapshot, and the line that comes back as the match is the line the search reported.
 */
module RoundTrip {
  import opened Wrappers
  import opened Bytes
  import opened ScanSpec
  import opened Watermark
  import opened QueryState
  import opened PageSpec
  import opened ContextSpec
  import ContextFacts
  import ContextLines
  import ContextOutcome
  import FileChunks
  import MatchFacts
  import PageOrigin
  import ReplyLines
  import StatefulQuery
  import Utf8

  // ---------- reading the context of such a reference ----------

  /** What a context request for a located match comes to, apart from the scan budgets never a changed file. */
  function Expected(data: seq<Byte>, reference: MatchReferenceData, beforeLines: nat, afterLines: nat,
                    limits: LimitsConfig)
    : Option<ContextReadError>
    requires reference.lineStartOffset <= |data|
  {
    var budget := Min(limits.maxScanBytesPerPage, DEFAULT_CONTEXT_SCAN_BYTES);
    var lineBytes := NewlineIndex(From(data, reference.lineStartOffset));
    if beforeLines > limits.maxContextLinesPerSide || afterLines > limits.maxContextLinesPerSide then
      Some(InvalidRequest)
    else if budget < reference.MatchEndOffset() - reference.lineStartOffset then Some(MatchOutsideScanBudget)
    else if budget <= lineBytes then Some(MatchLineScanLimit)
    else None
  }

  lemma NoFeedBefore(data: seq<Byte>, start: nat, end: nat)
    requires start <= end <= |data| && LF !in data[start..end]
    ensures end - start <= NewlineIndex(From(data, start))
  {
    hide NewlineIndex;
    var part, rest := data[start..end], From(data, start);
    assert forall i :: 0 <= i < |part| ==> rest[i] == part[i] != LF;
  }

  /** The line of a located match, seen from its start. */
  lemma LocatedLine(query: LineQuery, data: seq<Byte>, m: ScanMatch)
    requires query.keyword != [] && MatchFacts.Located(query, data, m)
    ensures var rest := From(data, m.lineStartOffset);
            var spec := MatchSpec(m.matchByteOffset - m.lineStartOffset, query.keyword, query.caseSensitive);
            && spec.End() <= NewlineIndex(rest) && spec.Agrees(rest[..NewlineIndex(rest)])
  {
    hide NewlineCount, OccursAt, NewlineIndex, MatchSpec.Agrees;
    var start, end := m.lineStartOffset, m.matchByteOffset + |query.keyword|;
    var rest := From(data, start);
    var n := NewlineIndex(rest);
    NoFeedBefore(data, start, end);
    assert rest[..n] == data[start..start + n];
    ContextFacts.OccursInSlice(data, start, start + n, Needle(query.keyword, query.caseSensitive), m.matchByteOffset);
    ContextFacts.AgreementIsOccurrence(rest[..n],
                                       MatchSpec(m.matchByteOffset - start, query.keyword, query.caseSensitive));
  }

  lemma AgreesWithPrefix(spec: MatchSpec, line: seq<Byte>, n: nat)
    requires spec.Agrees(line) && n <= |line|
    ensures spec.Agrees(line[..n])
  {
  }

  /** The forward read of a located match. */
  lemma ForwardRead(query: LineQuery, data: seq<Byte>, m: ScanMatch, limits: LimitsConfig, budget: nat)
    requires limits.Valid() && query.Searchable() && query.maxLineBytes == limits.maxLineBytes
    requires MatchFacts.Located(query, data, m) && |data| < StatefulQuery.FILE_SIZE_LIMIT
    ensures var rest := From(data, m.lineStartOffset);
            var spec := MatchSpec(m.matchByteOffset - m.lineStartOffset, query.keyword, query.caseSensitive);
            var r := ReadLine(rest, budget, limits.maxLineBytes, Some(spec));
            if budget < spec.End() then r == Err(MatchOutsideScanBudget)
            else if budget <= NewlineIndex(rest) then r.Ok? && r.value.read == BudgetExhausted
            else r.Ok? && r.value.read.Complete?
  {
    hide NewlineIndex, Visible, NewlineCount, OccursAt;
    LocatedLine(query, data, m);
    var rest := From(data, m.lineStartOffset);
    var spec := MatchSpec(m.matchByteOffset - m.lineStartOffset, query.keyword, query.caseSensitive);
    var n := NewlineIndex(rest);
    AgreesWithPrefix(spec, rest[..n], Min(n, budget));
    assert rest[..n][..Min(n, budget)] == rest[..Min(n, budget)];
  }

  /** The lines before a located match can be read, and its line number counts them. */
  lemma LocatedBefore(query: LineQuery, data: seq<Byte>, m: ScanMatch, reference: MatchReferenceData, requested: nat,
                      limits: ContextReadLimits)
    requires MatchFacts.Located(query, data, m) && limits.maxBeforeScanBytes > 0
    requires reference.lineStartOffset == m.lineStartOffset && reference.lineNumber == m.lineNumber
    ensures ReadBefore(data, reference, requested, limits).Ok?
    ensures m.lineNumber == 1 + |ContextLines.LinesBefore(data, reference)|
  {
    hide NewlineCount, OccursAt, ReadBefore, LineRanges;
    ContextLines.RangesCount(data, m.lineStartOffset);
    var prefix := data[..m.lineStartOffset];
    assert prefix != [] ==> prefix[|prefix| - 1] == data[m.lineStartOffset - 1];
    ContextLines.BeforeIsReadable(data, reference, requested, limits);
  }

  /**
   In every file that extends the snapshot, a reference built by the search is resolved without `FileChanged`:
   the read succeeds unless too many lines were asked for or the match line does not fit the scan budget.
   */
  lemma ContextOfMatch(binding: QueryBinding, limits: LimitsConfig, frozen: FrozenCandidate, m: ScanMatch,
                       data: seq<Byte>, fileSize: nat, beforeLines: nat, afterLines: nat)
    requires binding.Valid() && limits.Valid() && StatefulQuery.SaneSnapshot(frozen)
    requires |binding.keyword| <= limits.maxLineBytes && Utf8.Valid(binding.keyword)
    requires MatchFacts.Located(LineQueryOf(binding, limits), frozen.bytes, m)
    requires frozen.bytes <= data && |data| < StatefulQuery.FILE_SIZE_LIMIT && |frozen.bytes| <= fileSize
    ensures var reference := ReferenceOf(binding, frozen.candidate.snapshot, m);
            var r := ReadContext(data, fileSize, reference, beforeLines, afterLines, FromServiceLimits(limits));
            && reference.Valid() && reference.lineStartOffset <= |data|
            && (match Expected(data, reference, beforeLines, afterLines, limits)
                case Some(e) => r == Err(e)
                case None => r.Ok?)
  {
    hide ReadBefore, ReadForward, ReadLine, ReadAfter, MatchReferenceData.Valid, StatefulQuery.SaneSnapshot,
         MatchFacts.Located, IntoContextLine, NewlineIndex, QueryBinding.Valid, ReadContext;
    var query, reference := LineQueryOf(binding, limits), ReferenceOf(binding, frozen.candidate.snapshot, m);
    var context := FromServiceLimits(limits);
    StatefulQuery.ReferenceValid(binding, limits, frozen, m);
    MatchFacts.LocatedInLonger(query, frozen.bytes, data, m);
    SearchableBinding(binding, limits);
    SizesFit(binding, limits, frozen, m, data);
    LocatedBefore(query, data, m, reference, beforeLines, context);
    ForwardRead(query, data, m, limits, context.maxForwardScanBytes);
    if afterLines <= limits.maxContextLinesPerSide {
      ForwardSucceeds(data, reference, afterLines, context);
    }
    ContextOutcome.MatchAlwaysFits(data, fileSize, reference, beforeLines, afterLines, context);
    ForwardDecides(data, fileSize, reference, beforeLines, afterLines, context);
  }

  /** When the lines before it can be read, the forward read decides what becomes of the request. */
  lemma ForwardDecides(data: seq<Byte>, fileSize: nat, reference: MatchReferenceData, beforeLines: nat, afterLines: nat,
                       context: ContextReadLimits)
    requires reference.Valid() && reference.fileSizeAtMatch <= fileSize
    requires ReadBefore(data, reference, beforeLines, context).Ok?
    ensures var r := ReadContext(data, fileSize, reference, beforeLines, afterLines, context);
            var forward := ReadForward(data, reference, afterLines, context);
            if context.Validate(beforeLines, afterLines).Some? then
              r == Err(context.Validate(beforeLines, afterLines).value)
            else if forward.Err? then r == Err(forward.error)
            else r.Ok? || r == Err(ContextReadError.InvalidLimits(PreviewExceedsBudget))
  {
    hide ReadBefore, ReadForward, KeptBefore, KeptAfter;
  }

  lemma SearchableBinding(binding: QueryBinding, limits: LimitsConfig)
    requires binding.Valid() && |binding.keyword| <= limits.maxLineBytes
    ensures LineQueryOf(binding, limits).Searchable()
  {
  }

  lemma SizesFit(binding: QueryBinding, limits: LimitsConfig, frozen: FrozenCandidate, m: ScanMatch, data: seq<Byte>)
    requires StatefulQuery.SaneSnapshot(frozen) && frozen.bytes <= data && |data| < StatefulQuery.FILE_SIZE_LIMIT
    requires MatchFacts.Located(LineQueryOf(binding, limits), frozen.bytes, m)
    ensures var reference := ReferenceOf(binding, frozen.candidate.snapshot, m);
            && reference.fileSizeAtMatch == |frozen.bytes|
            && reference.MatchEndOffset() <= |frozen.bytes| && reference.lineStartOffset <= |data|
            && reference.lineNumber <= 1 + |data|
  {
    hide OccursAt, NewlineCount;
    FileChunks.NewlineCountBound(frozen.bytes[..m.lineStartOffset]);
  }

  /** Behind a match line that was read, the forward read cannot fail for a numbering that fits. */
  lemma ForwardSucceeds(data: seq<Byte>, reference: MatchReferenceData, requested: nat, limits: ContextReadLimits)
    requires reference.Valid() && reference.lineStartOffset <= |data|
    requires reference.lineNumber + 1 + requested <= U64_LIMIT
    ensures var step := ReadLine(From(data, reference.lineStartOffset), limits.maxForwardScanBytes, limits.maxLineBytes,
                                 SpecOf(reference));
            var r := ReadForward(data, reference, requested, limits);
            if step.Err? then r == Err(step.error)
            else if step.value.read.BudgetExhausted? then r == Err(MatchLineScanLimit)
            else step.value.read.Complete? ==> r.Ok?
  {
    hide ReadLine, IntoContextLine, MatchReferenceData.Valid;
    var rest := From(data, reference.lineStartOffset);
    var step := ReadLine(rest, limits.maxForwardScanBytes, limits.maxLineBytes, SpecOf(reference));
    if step.Ok? && step.value.read.Complete? {
      ContextOutcome.AfterErrors(From(rest, step.value.consumed), limits.maxForwardScanBytes - step.value.consumed,
                                 requested, reference.lineNumber + 1, limits.maxLineBytes);
    }
  }

  // ---------- from a page to the context of each of its results ----------

  /** A file that begins with the bytes of the snapshot. */
  predicate Extends(data: seq<Byte>, fileSize: nat, frozen: FrozenCandidate) {
    frozen.bytes <= data && |data| < StatefulQuery.FILE_SIZE_LIMIT && |frozen.bytes| <= fileSize
  }

  /**
   The context of match `m`: it fails only for the reasons of `Expected`, and otherwise shows, among consecutive
   lines of the file, the reported line with the keyword; the keyword stands in the file at the reported offset,
   and the line is the one the search read unless it had no line feed yet.
   */
  ghost predicate Resolves(data: seq<Byte>, fileSize: nat, bytes: seq<Byte>, reference: MatchReferenceData,
                           m: ScanMatch, beforeLines: nat, afterLines: nat, limits: LimitsConfig)
  {
    var context := FromServiceLimits(limits);
    var r := ReadContext(data, fileSize, reference, beforeLines, afterLines, context);
    && reference.Valid() && m.lineStartOffset == reference.lineStartOffset <= Min(|data|, |bytes|)
    && OccursAt(data, reference.keyword, reference.caseSensitive, m.matchByteOffset)
    && (MatchFacts.Ended(bytes, m) ==> LineStays(data, bytes, m))
    && match Expected(data, reference, beforeLines, afterLines, limits)
       case Some(e) => r == Err(e)
       case None => r.Ok? && ShowsLine(r.value, data, bytes, reference, m, context)
  }

  ghost predicate ShowsLine(outcome: ContextReadOutcome, data: seq<Byte>, bytes: seq<Byte>,
                            reference: MatchReferenceData, m: ScanMatch, context: ContextReadLimits)
    requires reference.Valid() && m.lineStartOffset <= Min(|data|, |bytes|)
  {
    exists at: nat ::
      && ContextOutcome.AroundMatch(outcome, reference, context, at) && outcome.lines[at].lineNumber == m.lineNumber
      && ReplyLines.AreLinesOf(outcome.lines, data, reference, context.maxLineBytes)
      && ShowsReport(outcome.lines[at], LineStays(data, bytes, m), m, NeedleOf(reference), context.maxLineBytes)
  }

  /**
   The line of the match is the one the search read; it can only have grown, as the snapshot's unterminated last
   line.
   */
  predicate LineStays(data: seq<Byte>, bytes: seq<Byte>, m: ScanMatch)
    requires m.lineStartOffset <= Min(|data|, |bytes|)
  {
    MatchFacts.LineFrom(data, m.lineStartOffset) == MatchFacts.LineFrom(bytes, m.lineStartOffset)
  }

  /**
   An unchanged line is shown with the search's own content, cropped only when decoding made that too long; a
   grown line is longer.
   */
  predicate ShowsReport(line: ContextLine, same: bool, m: ScanMatch, needle: Option<Needle>, maximum: nat) {
    && (same <==> line.originalLineBytes == m.originalLineBytes)
    && (same ==>
          && line.content == BoundedText(m.content, maximum, needle).0
          && (line.contentTruncated <==> m.contentTruncated || |m.content| > maximum)
          && line.contentLossy == m.contentLossy)
  }

  /** A line of an extended file begins like the snapshot's, so it is the same line when it is as long. */
  lemma SameLengthStays(data: seq<Byte>, bytes: seq<Byte>, start: nat)
    requires bytes <= data && start <= |bytes|
    requires |MatchFacts.LineFrom(data, start)| == |MatchFacts.LineFrom(bytes, start)|
    ensures MatchFacts.LineFrom(data, start) == MatchFacts.LineFrom(bytes, start)
  {
    hide NewlineIndex;
    var a, b := From(data, start), From(bytes, start);
    assert forall i :: 0 <= i < |b| ==> a[i] == b[i];
  }

  lemma EndedStays(query: LineQuery, data: seq<Byte>, bytes: seq<Byte>, m: ScanMatch)
    requires bytes <= data && MatchFacts.Renders(query, bytes, m)
    ensures MatchFacts.Ended(bytes, m) ==> LineStays(data, bytes, m)
  {
    hide MatchFacts.LineFrom, PreviewOf, PreviewStart, StripCarriageReturn;
    if MatchFacts.Ended(bytes, m) {
      MatchFacts.EndedLineStays(bytes, data, m.lineStartOffset);
    }
  }

  /** The match line of the reply shows what the search reported of the line. */
  lemma ShowsWhatWasReported(query: LineQuery, data: seq<Byte>, bytes: seq<Byte>, m: ScanMatch, lineNumber: nat)
    requires bytes <= data && MatchFacts.Renders(query, bytes, m) && 0 < |query.keyword| <= query.maxLineBytes
    ensures var line, at := MatchFacts.LineFrom(data, m.lineStartOffset), m.matchByteOffset - m.lineStartOffset;
            var start := MatchSpec(at, query.keyword, query.caseSensitive).PreviewStart(query.maxLineBytes);
            var needle := Some(Needle(query.keyword, query.caseSensitive));
            ShowsReport(IntoContextLine(RawLine(Visible(line, start, query.maxLineBytes), start, |line|), lineNumber,
                                        true, query.maxLineBytes, needle), LineStays(data, bytes, m), m, needle,
                                        query.maxLineBytes)
  {
    hide MatchFacts.LineFrom, BoundedText, MatchAt, Visible;
    var line, at := MatchFacts.LineFrom(bytes, m.lineStartOffset), m.matchByteOffset - m.lineStartOffset;
    var position := ScanPosition(m.lineStartOffset, m.lineNumber);
    ContextFacts.PreviewsAgree(query, line, at, position, lineNumber);
    if |MatchFacts.LineFrom(data, m.lineStartOffset)| == |line| {
      SameLengthStays(data, bytes, m.lineStartOffset);
    }
  }

  /** The result's context can be read in every file that extends the candidate's snapshot, and shows match `m`. */
  ghost predicate ResolvesIn(frozen: FrozenCandidate, reference: MatchReferenceData, m: ScanMatch,
                             limits: LimitsConfig)
  {
    forall data: seq<Byte>, fileSize: nat, beforeLines: nat, afterLines: nat ::
      Extends(data, fileSize, frozen) ==>
            Resolves(data, fileSize, frozen.bytes, reference, m, beforeLines, afterLines, limits)
  }

  lemma MatchResolves(binding: QueryBinding, limits: LimitsConfig, frozen: FrozenCandidate, m: ScanMatch,
                      data: seq<Byte>, fileSize: nat, beforeLines: nat, afterLines: nat)
    requires binding.Valid() && limits.Valid() && StatefulQuery.SaneSnapshot(frozen)
    requires |binding.keyword| <= limits.maxLineBytes && Utf8.Valid(binding.keyword)
    requires MatchFacts.Located(LineQueryOf(binding, limits), frozen.bytes, m)
    requires MatchFacts.Renders(LineQueryOf(binding, limits), frozen.bytes, m) && Extends(data, fileSize, frozen)
    ensures Resolves(data, fileSize, frozen.bytes, ReferenceOf(binding, frozen.candidate.snapshot, m), m, beforeLines,
                     afterLines, limits)
  {
    hide ReadContext, MatchReferenceData.Valid, StatefulQuery.SaneSnapshot, QueryBinding.Valid, LimitsConfig.Valid,
         NewlineIndex, Utf8.Valid, Expected, OccursAt, ContextFacts.HoldsKeyword, NewlineCount, ShowsReport, LineStays,
         ReadForward, ReadBefore, MatchAt, IntoContextLine, MatchFacts.LineFrom, ReplyLines.AreLinesOf,
         ReplyLines.PointsToLine, ContextOutcome.NoMoreBefore, ContextOutcome.NoMoreAfter,
         ContextOutcome.ScansLines, ContextOutcome.SomeCut, ContextLines.BytesBefore, ContentBytes, Visible;
    var reference, context := ReferenceOf(binding, frozen.candidate.snapshot, m), FromServiceLimits(limits);
    ContextOfMatch(binding, limits, frozen, m, data, fileSize, beforeLines, afterLines);
    MatchFacts.LocatedInLonger(LineQueryOf(binding, limits), frozen.bytes, data, m);
    EndedStays(LineQueryOf(binding, limits), data, frozen.bytes, m);
    if ReadContext(data, fileSize, reference, beforeLines, afterLines, context).Ok? {
      var at, _ := ContextOutcome.ReplyIsExact(data, fileSize, reference, beforeLines, afterLines, context);
      ForwardWasRead(data, fileSize, reference, beforeLines, afterLines, context);
      ReplyLines.MatchLineOf(data, reference, afterLines, context);
      PointsThere(LineQueryOf(binding, limits), data, reference, m);
      ReplyLines.ReplyShowsFile(data, fileSize, reference, beforeLines, afterLines, context);
      NotEmptyKeyword(binding);
      ShowsWhatWasReported(LineQueryOf(binding, limits), data, frozen.bytes, m, reference.lineNumber);
    }
  }

  lemma PointsThere(query: LineQuery, data: seq<Byte>, reference: MatchReferenceData, m: ScanMatch)
    requires MatchFacts.Located(query, data, m)
    requires reference.lineStartOffset == m.lineStartOffset && reference.lineNumber == m.lineNumber
    ensures ReplyLines.PointsToLine(data, reference)
  {
    hide OccursAt, NewlineCount;
    var prefix := data[..m.lineStartOffset];
    assert prefix != [] ==> prefix[|prefix| - 1] == data[m.lineStartOffset - 1];
  }

  lemma ForwardWasRead(data: seq<Byte>, fileSize: nat, reference: MatchReferenceData, beforeLines: nat, afterLines: nat,
                       context: ContextReadLimits)
    requires ReadContext(data, fileSize, reference, beforeLines, afterLines, context).Ok?
    ensures reference.Valid() && ReadForward(data, reference, afterLines, context).Ok?
  {
    hide ReadBefore, ReadForward, Assemble, MatchReferenceData.Valid;
  }

  /** The result reports a match of the candidate whose context can be read in every file that extends the snapshot. */
  ghost predicate ResolvesFrom(binding: QueryBinding, limits: LimitsConfig, frozen: FrozenCandidate, x: Ranked) {
    exists m: ScanMatch ::
      PageOrigin.Names(binding, limits, frozen, x, m) && ResolvesIn(frozen, x.value.reference, m, limits)
  }

  /**
   Search and context agree: every result of a page can be resolved in every file that extends the snapshot it
   came from, and then the line marked as the match is the reported line, shows the keyword and, unless the line
   has grown, what the search reported of it.
   */
  lemma PageResolves(binding: QueryBinding, limits: LimitsConfig, frozen: seq<FrozenCandidate>,
                     after: Option<ResultWatermark>, i: nat)
    requires binding.Valid() && limits.Valid() && forall k :: 0 <= k < |frozen| ==>
               StatefulQuery.SaneSnapshot(frozen[k])
    requires |binding.keyword| <= limits.maxLineBytes && Utf8.Valid(binding.keyword)
    requires i < |Page(binding, limits, frozen, after).results|
    ensures exists k :: 0 <= k < |frozen|
              && ResolvesFrom(binding, limits, frozen[k], Page(binding, limits, frozen, after).results[i])
  {
    hide Page, Resolves, StatefulQuery.SaneSnapshot, QueryBinding.Valid, LimitsConfig.Valid, Utf8.Valid, Extends,
         MatchFacts.Located, MatchFacts.Renders;
    NotEmptyKeyword(binding);
    var x := Page(binding, limits, frozen, after).results[i];
    PageOrigin.PageComesFrom(binding, limits, frozen, after, i);
    var k :| 0 <= k < |frozen| && PageOrigin.FromCandidate(binding, limits, frozen[k], x);
    var m: ScanMatch :| PageOrigin.Names(binding, limits, frozen[k], x, m);
    forall data: seq<Byte>, fileSize: nat, beforeLines: nat, afterLines: nat | Extends(data, fileSize, frozen[k])
      ensures Resolves(data, fileSize, frozen[k].bytes, x.value.reference, m, beforeLines, afterLines, limits)
    {
      MatchResolves(binding, limits, frozen[k], m, data, fileSize, beforeLines, afterLines);
    }
    assert ResolvesIn(frozen[k], x.value.reference, m, limits);
  }

  lemma NotEmptyKeyword(binding: QueryBinding)
    requires binding.Valid()
    ensures binding.keyword != []
  {
  }
}
