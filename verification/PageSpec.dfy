/**
 What one result page is, as a function of the frozen file snapshots: every match of every candidate is
 judged by time, the matches behind the watermark are sorted, and the earliest are returned within budget.
 */
module PageSpec {
  import opened Wrappers
  import opened Bytes
  import opened ScanSpec
  import opened Watermark
  import opened QueryState
  import Utf8

  const LOSSY_UTF8_EXPANSION_FACTOR: nat := 3

  /** The limits a page depends on, within the bounds that configuration loading enforces. */
  datatype LimitsConfig = LimitsConfig(
    maxScanFilesPerQuery: nat,
    maxScanBytesPerPage: nat,
    maxResultsPerPage: nat,
    maxLineBytes: nat,
    maxReturnedContentBytes: nat,
    maxContextLinesPerSide: nat)
  {
    predicate Valid() {
      && 0 < maxScanFilesPerQuery <= 10_000
      && 0 < maxScanBytesPerPage <= MAX_SCAN_BYTES
      && 0 < maxResultsPerPage <= MAX_SCAN_RESULTS
      && 0 < maxLineBytes <= MAX_LINE_PREVIEW_BYTES
      && maxLineBytes <= maxReturnedContentBytes <= MAX_RETURNED_CONTENT_BYTES
      && 0 < maxContextLinesPerSide <= 50
    }
  }

  /** How many results one scan may return so that their decoded content always fits. */
  function ChunkResultLimit(maxLineBytes: nat): nat {
    var expandedLine := Max(maxLineBytes * LOSSY_UTF8_EXPANSION_FACTOR, 1);
    Min(Max(MAX_RETURNED_CONTENT_BYTES / expandedLine, 1), MAX_SCAN_RESULTS)
  }

  // ---------- time ----------

  datatype TimestampObservation = TimestampObservation(timestamp: Option<int>, malformed: bool)

  /** A source's timestamp rule: any function of the first bytes of a line. */
  datatype TimestampParser = TimestampParser(prefixBytes: nat, observe: seq<Byte> -> TimestampObservation)

  datatype TimeFilterDecision = InRange | OutOfRange | UnknownTimestamp | MalformedTimestamp

  datatype TimeRange = TimeRange(start: Option<int>, end: Option<int>) {
    /** Half open: the start belongs to the range, the end does not. */
    predicate Contains(timestamp: int) {
      (start.Some? ==> start.value <= timestamp) && (end.Some? ==> timestamp < end.value)
    }

    function Classify(observation: TimestampObservation): TimeFilterDecision {
      match observation.timestamp
      case Some(timestamp) => if Contains(timestamp) then InRange else OutOfRange
      case None => if observation.malformed then MalformedTimestamp else UnknownTimestamp
    }
  }

  /** The first `maximum` bytes of a line, cut at its line feed and at the end of the snapshot. */
  function LinePrefix(snapshot: seq<Byte>, lineStart: nat, maximum: nat): seq<Byte> {
    if lineStart >= |snapshot| then []
    else
      var window := snapshot[lineStart..Min(lineStart + maximum, |snapshot|)];
      window[..NewlineIndex(window)]
  }

  function Observe(parser: Option<TimestampParser>, snapshot: seq<Byte>, found: ScanMatch): TimestampObservation {
    match parser
    case None => TimestampObservation(None, false)
    case Some(p) => p.observe(LinePrefix(snapshot, found.lineStartOffset, p.prefixBytes))
  }

  // ---------- results ----------

  datatype QueryMatch = QueryMatch(
    sourceId: string,
    fileId: string,
    fileName: Path,
    lineNumber: nat,
    timestamp: Option<int>,
    content: seq<Byte>,
    contentTruncated: bool,
    contentLossy: bool,
    originalLineBytes: nat,
    lineStartOffset: nat,
    matchByteOffset: nat)

  datatype Registered = Registered(value: QueryMatch, reference: MatchReferenceData)

  type Ranked = Keyed<Registered>

  datatype Judged = Judged(decision: TimeFilterDecision, ranked: Ranked)

  function KeyOf(candidate: CursorCandidate, timestamp: Option<int>, found: ScanMatch): ResultWatermark {
    ResultWatermark(timestamp, candidate.sourceIndex, candidate.fileIndex, found.lineNumber, found.matchByteOffset)
  }

  function ValueOf(snapshot: SourceFileSnapshot, timestamp: Option<int>, found: ScanMatch): QueryMatch {
    QueryMatch(snapshot.sourceId, snapshot.fileId, snapshot.relativePath, found.lineNumber, timestamp, found.content,
               found.contentTruncated, found.contentLossy, found.originalLineBytes, found.lineStartOffset,
               found.matchByteOffset)
  }

  function ReferenceOf(binding: QueryBinding, snapshot: SourceFileSnapshot, found: ScanMatch): MatchReferenceData {
    MatchReferenceData(snapshot.sourceId, snapshot.fileId, snapshot.relativePath, snapshot.identity,
                       snapshot.sizeAtSnapshot, found.lineNumber, found.lineStartOffset, found.matchByteOffset,
                       binding.keyword, binding.caseSensitive)
  }

  function RangeOf(binding: QueryBinding): TimeRange {
    TimeRange(binding.startTime, binding.endTime)
  }

  function Judge(binding: QueryBinding, candidate: CursorCandidate, parser: Option<TimestampParser>,
                 snapshot: seq<Byte>, found: ScanMatch): Judged
  {
    var observation := Observe(parser, snapshot, found);
    Judged(RangeOf(binding).Classify(observation),
           Keyed(KeyOf(candidate, observation.timestamp, found),
                 Registered(ValueOf(candidate.snapshot, observation.timestamp, found),
                            ReferenceOf(binding, candidate.snapshot, found))))
  }

  function JudgeAll(binding: QueryBinding, candidate: CursorCandidate, parser: Option<TimestampParser>,
                    snapshot: seq<Byte>, found: seq<ScanMatch>): seq<Judged>
  {
    if found == [] then []
    else
      JudgeAll(binding, candidate, parser, snapshot, found[..|found| - 1])
      + [Judge(binding, candidate, parser, snapshot, found[|found| - 1])]
  }

  /** The matches the time filter keeps; unknown and malformed times are kept. */
  function InRangeOf(judged: seq<Judged>): seq<Ranked> {
    if judged == [] then []
    else
      var last := judged[|judged| - 1];
      InRangeOf(judged[..|judged| - 1]) + if last.decision == OutOfRange then [] else [last.ranked]
  }

  predicate Past(after: Option<ResultWatermark>, key: ResultWatermark) {
    after.Some? ==> Precedes(after.value, key)
  }

  /** The matches behind the watermark. */
  function EligibleOf(ranked: seq<Ranked>, after: Option<ResultWatermark>): seq<Ranked> {
    if ranked == [] then []
    else
      var last := ranked[|ranked| - 1];
      EligibleOf(ranked[..|ranked| - 1], after) + if Past(after, last.key) then [last] else []
  }

  function CountOf(judged: seq<Judged>, decision: TimeFilterDecision): nat {
    if judged == [] then 0
    else CountOf(judged[..|judged| - 1], decision) + if judged[|judged| - 1].decision == decision then 1 else 0
  }

  // ---------- scanning the candidates ----------

  datatype FileScan = FileScan(matches: seq<ScanMatch>, bytesScanned: nat, linesScanned: nat)

  /**
   The one snapshot whose unterminated last line is not reported: exactly as long as the largest scan, so
   that no budget is left to see its end, and without enough matches to interrupt the scan before.
   */
  predicate EndUnseen(query: LineQuery, snapshot: seq<Byte>, chunkLimit: nat) {
    |snapshot| == MAX_SCAN_BYTES && |TerminatedMatches(query, snapshot, START)| < chunkLimit
  }

  /** A file is scanned whole when the page's byte budget allows, otherwise up to that budget. */
  function ScanFile(query: LineQuery, snapshot: seq<Byte>, remaining: nat): FileScan {
    if |snapshot| > remaining then
      FileScan(TerminatedMatches(query, snapshot[..remaining], START), remaining, NewlineCount(snapshot[..remaining]))
    else if EndUnseen(query, snapshot, ChunkResultLimit(query.maxLineBytes)) then
      FileScan(TerminatedMatches(query, snapshot, START), |snapshot|, NewlineCount(snapshot))
    else
      FileScan(AllMatches(query, snapshot, START), |snapshot|, LineCount(snapshot))
  }

  /** A candidate with the bytes its snapshot froze and its source's timestamp rule. */
  datatype FrozenCandidate = FrozenCandidate(
    candidate: CursorCandidate,
    bytes: seq<Byte>,
    parser: Option<TimestampParser>)

  datatype PageScan = PageScan(
    judged: seq<Judged>,
    filesScanned: nat,
    bytesScanned: nat,
    linesScanned: nat,
    limited: bool)

  function LineQueryOf(binding: QueryBinding, limits: LimitsConfig): LineQuery {
    LineQuery(binding.keyword, binding.caseSensitive, limits.maxLineBytes)
  }

  function ScanCandidate(binding: QueryBinding, limits: LimitsConfig, frozen: FrozenCandidate, before: PageScan)
    : PageScan
    requires before.bytesScanned <= limits.maxScanBytesPerPage
  {
    var remaining := limits.maxScanBytesPerPage - before.bytesScanned;
    var scan := ScanFile(LineQueryOf(binding, limits), frozen.bytes, remaining);
    PageScan(before.judged + JudgeAll(binding, frozen.candidate, frozen.parser, frozen.bytes, scan.matches),
             before.filesScanned + 1,
             before.bytesScanned + scan.bytesScanned,
             before.linesScanned + scan.linesScanned,
             |frozen.bytes| > remaining)
  }

  /** The candidates in order, up to the one that exhausts the page's byte budget. */
  function ScanAll(binding: QueryBinding, limits: LimitsConfig, frozen: seq<FrozenCandidate>): (scan: PageScan)
    ensures scan.bytesScanned <= limits.maxScanBytesPerPage
  {
    if frozen == [] then PageScan([], 0, 0, 0, false)
    else
      var before := ScanAll(binding, limits, frozen[..|frozen| - 1]);
      if before.limited then before else ScanCandidate(binding, limits, frozen[|frozen| - 1], before)
  }

  // ---------- finishing the page ----------

  datatype QueryPageStopReason = Complete | ResultLimit | ReturnedContentByteLimit | ScanByteLimit

  /** The last char boundary at or below `at`. */
  function FloorBoundary(s: seq<Byte>, at: nat): (boundary: nat)
    requires at <= |s|
    ensures boundary <= at && Utf8.CharBoundary(s, boundary)
    ensures forall i :: boundary < i <= at ==> !Utf8.CharBoundary(s, i)
  {
    if at > 0 && !Utf8.CharBoundary(s, at) then FloorBoundary(s, at - 1) else at
  }

  function TruncateUtf8(content: seq<Byte>, maximum: nat): seq<Byte> {
    if |content| <= maximum then content else content[..FloorBoundary(content, maximum)]
  }

  function Shortened(ranked: Ranked, maximum: nat): Ranked {
    ranked.(value := ranked.value.(value := ranked.value.value.(
      content := TruncateUtf8(ranked.value.value.content, maximum), contentTruncated := true)))
  }

  datatype Selection = Selection(results: seq<Ranked>, contentBytes: nat, contentLimited: bool)

  /** Takes results while the content budget lasts; the result that exceeds it is shortened and is the last. */
  function TakeWithin(sorted: seq<Ranked>, used: nat, maximum: nat): Selection
    decreases |sorted|
  {
    if sorted == [] then Selection([], used, false)
    else
      var remaining := SaturatingSub(maximum, used);
      var first := sorted[0];
      if remaining == 0 then Selection([], used, true)
      else if |first.value.value.content| > remaining then
        var cut := Shortened(first, remaining);
        Selection([cut], used + |cut.value.value.content|, true)
      else
        var rest := TakeWithin(sorted[1..], used + |first.value.value.content|, maximum);
        rest.(results := [first] + rest.results)
  }

  datatype StatefulQuerySummary = StatefulQuerySummary(page: QuerySummary, skippedBeforeWatermark: nat)

  datatype ScannedPage = ScannedPage(results: seq<Ranked>, stopReason: QueryPageStopReason,
                                     summary: StatefulQuerySummary)

  function StopReason(limited: bool, contentLimited: bool, resultLimited: bool): QueryPageStopReason {
    if limited then QueryPageStopReason.ScanByteLimit
    else if contentLimited then QueryPageStopReason.ReturnedContentByteLimit
    else if resultLimited then QueryPageStopReason.ResultLimit
    else QueryPageStopReason.Complete
  }

  /** The counters of a scanned page before anything is returned. */
  function SummaryOf(considered: nat, scan: PageScan, after: Option<ResultWatermark>): StatefulQuerySummary {
    var inRange := InRangeOf(scan.judged);
    var eligible := EligibleOf(inRange, after);
    StatefulQuerySummary(
      QuerySummary(considered, scan.filesScanned, scan.bytesScanned, scan.linesScanned, |scan.judged|,
                   CountOf(scan.judged, OutOfRange), |eligible|, CountOf(scan.judged, UnknownTimestamp),
                   CountOf(scan.judged, MalformedTimestamp), 0, 0),
      SaturatingSub(|inRange|, |eligible|))
  }

  function PageOf(eligible: seq<Ranked>, maxResults: nat, maxContentBytes: nat, limited: bool,
                  summary: StatefulQuerySummary)
    : ScannedPage
  {
    var selection := TakeWithin(Earliest(eligible, maxResults), 0, maxContentBytes);
    ScannedPage(selection.results,
                StopReason(limited, selection.contentLimited, summary.page.eligibleMatches > maxResults),
                summary.(page := summary.page.(returnedResults := |selection.results|,
                                               returnedContentBytes := selection.contentBytes)))
  }

  /** One page. */
  function Page(binding: QueryBinding, limits: LimitsConfig, frozen: seq<FrozenCandidate>,
                after: Option<ResultWatermark>)
    : ScannedPage
  {
    var scan := ScanAll(binding, limits, frozen);
    PageOf(EligibleOf(InRangeOf(scan.judged), after), binding.maxResults, limits.maxReturnedContentBytes, scan.limited,
           SummaryOf(|frozen|, scan, after))
  }
}
