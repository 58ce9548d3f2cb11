/**
 What a scan means, line by line: split the bytes at line feeds, take the leftmost folded occurrence of
 the keyword in each line, cut a fixed window around it, and stop at the first limit reached.
 */
module ScanSpec {
  import opened Wrappers
  import opened Bytes
  import Utf8

  const MAX_SCAN_KEYWORD_CHARS: nat := 256
  const MAX_READ_BUFFER_BYTES: nat := 1024 * 1024
  const MAX_LINE_PREVIEW_BYTES: nat := 1024 * 1024
  const MAX_RETURNED_CONTENT_BYTES: nat := 16 * 1024 * 1024
  const MAX_SCAN_RESULTS: nat := 200
  const MAX_SCAN_BYTES: nat := 64 * 1024 * 1024 * 1024

  datatype ScanPosition = ScanPosition(byteOffset: nat, lineNumber: nat)

  const START: ScanPosition := ScanPosition(0, 1)

  datatype ScanLimits = ScanLimits(
    maxScanBytes: nat,
    maxResults: nat,
    maxLineBytes: nat,
    maxReturnedContentBytes: nat,
    readBufferBytes: nat)

  /** What is looked for in one line; the part of a request that the other limits do not touch. */
  datatype LineQuery = LineQuery(keyword: seq<Byte>, caseSensitive: bool, maxLineBytes: nat) {
    /** The keyword fits the preview and contains no line break. */
    predicate Searchable() {
      && 0 < |keyword| <= maxLineBytes
      && LF !in keyword && CR !in keyword
    }
  }

  datatype ScanRequest = ScanRequest(
    keyword: seq<Byte>,
    caseSensitive: bool,
    limits: ScanLimits,
    startPosition: ScanPosition)
  {
    function Query(): LineQuery {
      LineQuery(keyword, caseSensitive, limits.maxLineBytes)
    }

    /** The bound that an error is about. */
    predicate Within(error: ScanError) {
      match error
      case InvalidKeyword => 0 < CharCount(keyword) <= 256 && LF !in keyword && CR !in keyword
      case InvalidStartPosition => startPosition.lineNumber > 0
      case InvalidLimits(ScanBytes) => 0 < limits.maxScanBytes <= 64 * 1024 * 1024 * 1024
      case InvalidLimits(Results) => 0 < limits.maxResults <= 200
      case InvalidLimits(LineBytes) => 0 < limits.maxLineBytes <= 1024 * 1024
      case InvalidLimits(KeywordLength) => |keyword| <= limits.maxLineBytes
      case InvalidLimits(ReturnedContent) => 0 < limits.maxReturnedContentBytes <= 16 * 1024 * 1024
      case InvalidLimits(ReadBuffer) => 0 < limits.readBufferBytes <= 1024 * 1024
      case _ => true
    }

    function Validate(): (r: Option<ScanError>)
      ensures r.None? ==> Query().Searchable()
    {
      if CharCount(keyword) == 0 || CharCount(keyword) > MAX_SCAN_KEYWORD_CHARS || LF in keyword || CR in keyword
      then Some(InvalidKeyword)
      else if startPosition.lineNumber == 0 then Some(InvalidStartPosition)
      else if limits.maxScanBytes == 0 || limits.maxScanBytes > MAX_SCAN_BYTES then Some(InvalidLimits(ScanBytes))
      else if limits.maxResults == 0 || limits.maxResults > MAX_SCAN_RESULTS then Some(InvalidLimits(Results))
      else if limits.maxLineBytes == 0 || limits.maxLineBytes > MAX_LINE_PREVIEW_BYTES then
        Some(InvalidLimits(LineBytes))
      else if |keyword| > limits.maxLineBytes then Some(InvalidLimits(KeywordLength))
      else if limits.maxReturnedContentBytes == 0 || limits.maxReturnedContentBytes > MAX_RETURNED_CONTENT_BYTES then
        Some(InvalidLimits(ReturnedContent))
      else if limits.readBufferBytes == 0 || limits.readBufferBytes > MAX_READ_BUFFER_BYTES then
        Some(InvalidLimits(ReadBuffer))
      else None
    }
  }

  /** A request is accepted exactly when it keeps every bound, and an error names a bound it does not keep. */
  lemma ValidateIsExact(request: ScanRequest)
    ensures match request.Validate()
            case None => forall error :: request.Within(error)
            case Some(error) => !request.Within(error)
  {
  }

  /** `chars().count()` of a string: every character has exactly one byte that is no continuation byte. */
  function CharCount(s: seq<Byte>): (n: nat)
    ensures n <= |s|
  {
    if s == [] then 0 else (if Utf8.Continuation(s[0]) then 0 else 1) + CharCount(s[1..])
  }

  /** A string has one character more for each character in front of it. */
  lemma CharCountMeans(c: seq<Byte>, s: seq<Byte>)
    ensures CharCount([]) == 0
    ensures Utf8.Character(c) ==> CharCount(c + s) == 1 + CharCount(s)
  {
    if Utf8.Character(c) {
      assert (c + s)[1..] == c[1..] + s;
      ContinuationsCount(c[1..], s);
    }
  }

  lemma {:induction false} ContinuationsCount(more: seq<Byte>, s: seq<Byte>)
    requires forall i :: 0 <= i < |more| ==> Utf8.Continuation(more[i])
    ensures CharCount(more + s) == CharCount(s)
  {
    if more == [] {
      assert more + s == s;
    } else {
      ContinuationsCount(more[1..], s);
      assert (more + s)[1..] == more[1..] + s;
    }
  }

  datatype LimitField = ScanBytes | Results | LineBytes | KeywordLength | ReturnedContent | ReadBuffer

  datatype ScanError = InvalidKeyword | InvalidStartPosition | InvalidLimits(field: LimitField) | PositionOverflow | Io

  datatype ScanMatch = ScanMatch(
    lineNumber: nat,
    lineStartOffset: nat,
    matchByteOffset: nat,
    content: seq<Byte>,
    contentTruncated: bool,
    contentLossy: bool,
    originalLineBytes: nat)

  datatype ScanStopReason =
    | Complete | ResultLimit | ScanByteLimit | ReturnedContentByteLimit | Cancelled | DeadlineExceeded

  datatype ScanOutcome = ScanOutcome(
    startPosition: ScanPosition,
    nextPosition: Option<ScanPosition>,
    results: seq<ScanMatch>,
    bytesScanned: nat,
    linesScanned: nat,
    returnedContentBytes: nat,
    stopReason: ScanStopReason)

  // ---------- one line ----------

  /** Where the preview of a line begins: the keyword sits in the middle when the line is long enough. */
  function PreviewStart(at: nat, keywordLength: nat, maxLineBytes: nat): (start: nat)
    ensures start <= at
  {
    SaturatingSub(at, SaturatingSub(maxLineBytes, keywordLength) / 2)
  }

  function Window(line: seq<Byte>, start: nat, width: nat): seq<Byte>
    requires start <= |line|
  {
    var upTo := line[..Min(start + width, |line|)];
    if start == 0 then upTo else upTo[start..]
  }

  /** The displayed bytes: a carriage return is dropped only when it is known to end the line. */
  function StripCarriageReturn(preview: seq<Byte>, coversLineEnd: bool): seq<Byte> {
    if coversLineEnd && preview != [] && preview[|preview| - 1] == CR then preview[..|preview| - 1] else preview
  }

  function PreviewOf(query: LineQuery, line: seq<Byte>, at: nat): seq<Byte>
    requires at <= |line|
  {
    Window(line, PreviewStart(at, |query.keyword|, query.maxLineBytes), query.maxLineBytes)
  }

  function MatchAt(query: LineQuery, line: seq<Byte>, at: nat, position: ScanPosition): ScanMatch
    requires at <= |line|
  {
    var start := PreviewStart(at, |query.keyword|, query.maxLineBytes);
    var preview := PreviewOf(query, line, at);
    var coversLineEnd := start + |preview| == |line|;
    var shown := StripCarriageReturn(preview, coversLineEnd);
    ScanMatch(position.lineNumber, position.byteOffset, position.byteOffset + at, Utf8.Lossy(shown),
              start > 0 || !coversLineEnd, !Utf8.Valid(shown), |line|)
  }

  /** The one match of a line, if it has any. */
  function LineMatch(query: LineQuery, line: seq<Byte>, position: ScanPosition): Option<ScanMatch> {
    var at := FindFolded(line, query.keyword, query.caseSensitive);
    if at.None? then None else Some(MatchAt(query, line, at.value, position))
  }

  // ---------- many lines ----------

  function NextLine(position: ScanPosition, lineBytes: nat): ScanPosition {
    ScanPosition(position.byteOffset + lineBytes + 1, position.lineNumber + 1)
  }

  function Listed(found: Option<ScanMatch>): seq<ScanMatch> {
    if found.None? then [] else [found.value]
  }

  /** Every match of `s`; a last line without a line feed counts as a line. */
  function AllMatches(query: LineQuery, s: seq<Byte>, position: ScanPosition): seq<ScanMatch> {
    if s == [] then []
    else
      var n := NewlineIndex(s);
      Listed(LineMatch(query, s[..n], position)) +
      if n < |s| then AllMatches(query, s[n + 1..], NextLine(position, n)) else []
  }

  /** The matches of the lines of `s` that end in a line feed. */
  function TerminatedMatches(query: LineQuery, s: seq<Byte>, position: ScanPosition): seq<ScanMatch> {
    var n := NewlineIndex(s);
    if n == |s| then []
    else Listed(LineMatch(query, s[..n], position)) + TerminatedMatches(query, s[n + 1..], NextLine(position, n))
  }

  function LineCount(s: seq<Byte>): nat {
    if s == [] then 0
    else
      var n := NewlineIndex(s);
      if n < |s| then 1 + LineCount(s[n + 1..]) else 1
  }

  function NewlineCount(s: seq<Byte>): nat {
    var n := NewlineIndex(s);
    if n == |s| then 0 else 1 + NewlineCount(s[n + 1..])
  }

  // ---------- a bounded scan ----------

  /** What has been reported when the scanner stands at a line boundary. */
  datatype Progress = Progress(results: seq<ScanMatch>, bytesScanned: nat, linesScanned: nat, contentBytes: nat)

  const NOTHING: Progress := Progress([], 0, 0, 0)

  function PositionAfter(start: ScanPosition, done: Progress): ScanPosition {
    ScanPosition(start.byteOffset + done.bytesScanned, start.lineNumber + done.linesScanned)
  }

  function Outcome(request: ScanRequest, done: Progress, reason: ScanStopReason, next: Option<ScanPosition>)
    : ScanOutcome
  {
    ScanOutcome(request.startPosition, next, done.results, done.bytesScanned, done.linesScanned, done.contentBytes,
                reason)
  }

  /** A finished line's match may be dropped, kept, or kept as the last one. */
  function KeepMatch(limits: ScanLimits, found: Option<ScanMatch>, done: Progress): (Progress, Option<ScanStopReason>) {
    if found.None? then (done, None)
    else
      var total := done.contentBytes + |found.value.content|;
      if total > limits.maxReturnedContentBytes then (done, Some(ReturnedContentByteLimit))
      else
        var kept := done.(results := done.results + [found.value], contentBytes := total);
        if |kept.results| >= limits.maxResults then (kept, Some(ResultLimit))
        else if total >= limits.maxReturnedContentBytes then (kept, Some(ReturnedContentByteLimit))
        else (kept, None)
  }

  /** A line of `consumed` bytes, its line feed included, is finished. */
  function CloseLine(limits: ScanLimits, found: Option<ScanMatch>, consumed: nat, done: Progress)
    : (Progress, Option<ScanStopReason>)
  {
    KeepMatch(limits, found,
              done.(bytesScanned := done.bytesScanned + consumed, linesScanned := done.linesScanned + 1))
  }

  /** The scan of `rest`, which begins a line, with `budget` bytes left to read and `done` reported so far. */
  function ScanFrom(request: ScanRequest, rest: seq<Byte>, budget: nat, done: Progress): ScanOutcome
    decreases |rest|
  {
    var position := PositionAfter(request.startPosition, done);
    if budget == 0 then Outcome(request, done, ScanByteLimit, Some(position))
    else if rest == [] then Outcome(request, done, Complete, None)
    else
      var n := NewlineIndex(rest);
      var found := LineMatch(request.Query(), rest[..n], position);
      if n < |rest| && n < budget then
        var (next, stop) := CloseLine(request.limits, found, n + 1, done);
        if stop.Some? then Outcome(request, next, stop.value, Some(PositionAfter(request.startPosition, next)))
        else ScanFrom(request, rest[n + 1..], budget - n - 1, next)
      else if |rest| < budget then
        var (next, stop) := CloseLine(request.limits, found, |rest|, done);
        Outcome(request, next, if stop.Some? then stop.value else Complete, None)
      else
        Outcome(request, done.(bytesScanned := done.bytesScanned + budget), ScanByteLimit, None)
  }

  /** The whole scan, reading at most `budget` bytes. */
  function ScanWithin(request: ScanRequest, data: seq<Byte>, budget: nat): ScanOutcome {
    ScanFrom(request, data, budget, NOTHING)
  }

  /** One step of the scan over a line that is read completely. */
  lemma ScanFromLine(request: ScanRequest, rest: seq<Byte>, n: nat, budget: nat, start: Progress)
    requires n == NewlineIndex(rest) < |rest| && n < budget
    ensures var found := LineMatch(request.Query(), rest[..n], PositionAfter(request.startPosition, start));
            var (next, stop) := CloseLine(request.limits, found, n + 1, start);
            ScanFrom(request, rest, budget, start)
            == if stop.Some? then Outcome(request, next, stop.value, Some(PositionAfter(request.startPosition, next)))
               else ScanFrom(request, rest[n + 1..], budget - n - 1, next)
  {
    hide LineMatch;
  }
}
