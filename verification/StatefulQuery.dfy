/**
 Building one result page: the loops over candidates and chunks, the time filter, the bounded heap and the
 content budget, proved equal to `PageSpec.Page`.
 */
module StatefulQuery {
  import opened Wrappers
  import opened Bytes
  import opened Collections
  import opened ScanSpec
  import opened Watermark
  import opened QueryState
  import opened PageSpec
  import opened CandidateScan
  import ChunkedScan
  import FileChunks
  import MatchFacts
  import PageFacts
  import Scanner
  import Utf8

  datatype StatefulQueryError =
    | FileLimitExceeded | InvalidCursorState | SourceUnavailable | QueryCancelled | QueryDeadlineExceeded
    | InvalidScanPosition | ScanPositionNotLineBoundary | UnsafeContinuation
    | Scan(scanError: ScanError) | State(stateError: QueryStateError) | IoFailed

  // ---------- the outside world ----------

  /**
   Opening a candidate's file: it may have grown since the snapshot, and when the world is not `steady` it
   may be gone, replaced or unreadable.
   */
  method OpenSnapshotFile(frozen: FrozenCandidate, steady: bool) returns (r: Result<seq<Byte>, StatefulQueryError>)
    ensures r.Ok? ==> frozen.bytes <= r.value
    ensures r.Err? ==> r.error == SourceUnavailable
    ensures steady ==> r.Ok?
  {
    if {
      case !steady => return Err(SourceUnavailable);
      case true =>
        var appended: seq<Byte> := *;
        return Ok(frozen.bytes + appended);
    }
  }

  method CheckInterrupted(steady: bool) returns (error: Option<StatefulQueryError>)
    ensures error.Some? ==> error.value == QueryCancelled || error.value == QueryDeadlineExceeded
    ensures steady ==> error.None?
  {
    if {
      case !steady => return Some(QueryCancelled);
      case !steady => return Some(QueryDeadlineExceeded);
      case true => return None;
    }
  }

  // ---------- small steps ----------

  /** A scan may only begin at a line boundary inside the snapshot. */
  method SeekToScanPosition(file: seq<Byte>, position: ScanPosition, snapshotSize: nat)
    returns (ok: bool, error: StatefulQueryError)
    requires snapshotSize <= |file|
    ensures ok <==>
              position.lineNumber > 0 && position.byteOffset <= snapshotSize
              && ChunkedScan.WholeLines(file[..Min(position.byteOffset, snapshotSize)])
    ensures !ok ==> error == InvalidScanPosition || error == ScanPositionNotLineBoundary
  {
    if position.lineNumber == 0 || position.byteOffset > snapshotSize {
      return false, InvalidScanPosition;
    }
    if position.byteOffset > 0 {
      if file[position.byteOffset - 1] != LF {
        return false, ScanPositionNotLineBoundary;
      }
    }
    return true, InvalidScanPosition;
  }

  function ValidatedNextPosition(previous: ScanPosition, next: Option<ScanPosition>)
    : (r: Result<ScanPosition, StatefulQueryError>)
    ensures r.Ok? ==> r.value.byteOffset > previous.byteOffset && r.value.lineNumber >= previous.lineNumber
  {
    if next.None? || next.value.byteOffset <= previous.byteOffset || next.value.lineNumber < previous.lineNumber
    then Err(UnsafeContinuation)
    else Ok(next.value)
  }

  /** Reads the beginning of a line from the file in short reads. */
  method ReadLinePrefix(reader: Scanner.Reader, lineStart: nat, snapshot: seq<Byte>, maximum: nat)
    returns (r: Result<seq<Byte>, StatefulQueryError>)
    requires reader.Valid() && snapshot <= reader.data
    modifies reader
    ensures lineStart >= |snapshot| ==> r == Err(InvalidScanPosition)
    ensures lineStart < |snapshot| && r.Ok? ==> r.value == LinePrefix(snapshot, lineStart, maximum)
    ensures lineStart < |snapshot| && r.Err? ==> r.error == IoFailed && reader.faulty
    ensures reader.Valid()
  {
    hide NewlineIndex, LinePrefix, PrefixOf;
    if lineStart >= |snapshot| {
      return Err(InvalidScanPosition);
    }
    reader.Seek(lineStart);
    assert reader.position == lineStart;
    var capacity := Min(|snapshot| - lineStart, maximum);
    ghost var window := snapshot[lineStart..lineStart + capacity];
    var prefix: seq<Byte> := [];
    NoPrefix(window);
    while |prefix| < capacity
      invariant reader.Valid() && reader.position == lineStart + |prefix|
      invariant |prefix| <= capacity && PrefixOf(prefix, window)
      decreases capacity - |prefix|, reader.interruptions
    {
      var read := reader.Read(Min(capacity - |prefix|, 64));
      match read {
        case Interrupted =>
        case Failed => return Err(IoFailed);
        case Chunk(bytes) =>
          if bytes == [] {
            assert false;
            break;
          }
          ReadPart(reader.data, snapshot, lineStart, capacity, |prefix|, bytes);
          var newline := NewlineIndex(bytes);
          PrefixEnds(window, prefix, bytes);
          WindowPrefix(snapshot, lineStart, maximum);
          if newline < |bytes| {
            return Ok(prefix + bytes[..newline]);
          }
          prefix := prefix + bytes;
      }
    }
    PrefixIsWindow(window, prefix);
    WindowPrefix(snapshot, lineStart, maximum);
    return Ok(prefix);
  }

  /** The beginning of the window, as long as no line feed was met. */
  predicate PrefixOf(prefix: seq<Byte>, window: seq<Byte>) {
    |prefix| <= |window| && prefix == window[..|prefix|] && LF !in prefix
  }

  lemma NoPrefix(window: seq<Byte>)
    ensures PrefixOf([], window)
  {
  }

  lemma PrefixIsWindow(window: seq<Byte>, prefix: seq<Byte>)
    requires PrefixOf(prefix, window) && |prefix| == |window|
    ensures prefix == window[..NewlineIndex(window)]
  {
    hide NewlineIndex;
    assert prefix == window;
    NoneIn(prefix);
  }

  lemma WindowPrefix(snapshot: seq<Byte>, lineStart: nat, maximum: nat)
    requires lineStart < |snapshot|
    ensures var window := snapshot[lineStart..lineStart + Min(|snapshot| - lineStart, maximum)];
            LinePrefix(snapshot, lineStart, maximum) == window[..NewlineIndex(window)]
  {
    hide NewlineIndex;
  }

  lemma ReadPart(data: seq<Byte>, snapshot: seq<Byte>, start: nat, capacity: nat, from: nat, chunk: seq<Byte>)
    requires snapshot <= data && start + capacity <= |snapshot| && from + |chunk| <= capacity
    requires chunk == data[start + from..start + from + |chunk|]
    ensures chunk == snapshot[start..start + capacity][from..from + |chunk|]
  {
    var window := snapshot[start..start + capacity];
    forall i | 0 <= i < |chunk|
      ensures chunk[i] == window[from..from + |chunk|][i]
    {
      assert chunk[i] == data[start + from + i] == snapshot[start + from + i];
    }
  }

  /** A chunk with a line feed ends the prefix; any other makes it longer. */
  lemma PrefixEnds(window: seq<Byte>, prefix: seq<Byte>, chunk: seq<Byte>)
    requires PrefixOf(prefix, window) && |prefix| + |chunk| <= |window|
    requires chunk == window[|prefix|..|prefix| + |chunk|]
    ensures NewlineIndex(chunk) < |chunk| ==> prefix + chunk[..NewlineIndex(chunk)] == window[..NewlineIndex(window)]
    ensures NewlineIndex(chunk) == |chunk| ==> PrefixOf(prefix + chunk, window)
  {
    hide NewlineIndex;
    PrefixGrows(window, prefix, chunk);
    if NewlineIndex(chunk) < |chunk| {
      PrefixEndsInside(prefix, chunk, window[|prefix| + |chunk|..]);
    } else {
      NoneInBoth(prefix, chunk);
    }
  }

  lemma PrefixGrows(window: seq<Byte>, prefix: seq<Byte>, chunk: seq<Byte>)
    requires |prefix| + |chunk| <= |window|
    requires prefix == window[..|prefix|] && chunk == window[|prefix|..|prefix| + |chunk|]
    ensures prefix + chunk == window[..|prefix| + |chunk|]
    ensures window == prefix + chunk + window[|prefix| + |chunk|..]
  {
  }

  lemma PrefixEndsInside(prefix: seq<Byte>, chunk: seq<Byte>, tail: seq<Byte>)
    requires LF !in prefix && NewlineIndex(chunk) < |chunk|
    ensures var window := prefix + chunk + tail;
            prefix + chunk[..NewlineIndex(chunk)] == window[..NewlineIndex(window)]
  {
    hide NewlineIndex;
    Regroup(prefix, chunk, tail);
    NewlineBehind(prefix, chunk + tail);
    NewlineWithin(chunk, tail);
    TakeInto(prefix, chunk + tail, NewlineIndex(chunk));
    TakePart(chunk, tail, NewlineIndex(chunk));
  }

  lemma NoneInBoth(a: seq<Byte>, b: seq<Byte>)
    requires LF !in a
    ensures NewlineIndex(b) == |b| ==> LF !in a + b
  {
    hide NewlineIndex;
  }

  lemma NoneIn(a: seq<Byte>)
    requires LF !in a
    ensures a[..NewlineIndex(a)] == a
  {
    hide NewlineIndex;
  }

  lemma NewlineBehind(a: seq<Byte>, b: seq<Byte>)
    requires LF !in a
    ensures NewlineIndex(a + b) == |a| + NewlineIndex(b)
  {
    hide NewlineIndex;
    var s := a + b;
    assert forall i :: 0 <= i < |a| ==> s[i] == a[i];
    assert forall i :: 0 <= i < |b| ==> s[|a| + i] == b[i];
  }

  lemma NewlineWithin(a: seq<Byte>, b: seq<Byte>)
    requires NewlineIndex(a) < |a|
    ensures NewlineIndex(a + b) == NewlineIndex(a)
  {
    hide NewlineIndex;
    var s := a + b;
    assert forall i :: 0 <= i < |a| ==> s[i] == a[i];
  }

  // ---------- judging matches ----------

  /** `page` with the counters that depend on the judged matches. */
  function Counted(page: QuerySummary, judged: seq<Judged>, after: Option<ResultWatermark>): StatefulQuerySummary {
    var inRange := InRangeOf(judged);
    StatefulQuerySummary(
      page.(filteredOutMatches := CountOf(judged, OutOfRange),
            unknownTimestampMatches := CountOf(judged, UnknownTimestamp),
            malformedTimestampMatches := CountOf(judged, MalformedTimestamp),
            eligibleMatches := |EligibleOf(inRange, after)|),
      SaturatingSub(|inRange|, |EligibleOf(inRange, after)|))
  }

  /** The counters and the heap describe the judged matches. */
  ghost predicate Tracks(summary: StatefulQuerySummary, heap: MaxHeap<Registered>, judged: seq<Judged>,
                         after: Option<ResultWatermark>, maxResults: nat)
    reads heap
  {
    && summary == Counted(summary.page, judged, after)
    && multiset(heap.items) == multiset(Earliest(EligibleOf(InRangeOf(judged), after), maxResults))
  }

  /** What one more judged match does to the counters. */
  function Tally(summary: StatefulQuerySummary, next: Judged, after: Option<ResultWatermark>): StatefulQuerySummary {
    var page := summary.page;
    if next.decision == OutOfRange then summary.(page := page.(filteredOutMatches := page.filteredOutMatches + 1))
    else
      var known :=
        if next.decision == UnknownTimestamp then page.(unknownTimestampMatches := page.unknownTimestampMatches + 1)
        else if next.decision == MalformedTimestamp then
          page.(malformedTimestampMatches := page.malformedTimestampMatches + 1)
        else page;
      if Past(after, next.ranked.key) then summary.(page := known.(eligibleMatches := known.eligibleMatches + 1))
      else StatefulQuerySummary(known, summary.skippedBeforeWatermark + 1)
  }

  lemma InRangeStep(judged: seq<Judged>, next: Judged)
    ensures InRangeOf(judged + [next]) == InRangeOf(judged) + if next.decision == OutOfRange then [] else [next.ranked]
    ensures forall d :: CountOf(judged + [next], d) == CountOf(judged, d) + if next.decision == d then 1 else 0
  {
    PageFacts.LastOf(judged, next);
  }

  lemma EligibleStep(ranked: seq<Ranked>, next: Ranked, after: Option<ResultWatermark>)
    ensures EligibleOf(ranked + [next], after)
         == EligibleOf(ranked, after) + if Past(after, next.key) then [next] else []
  {
    PageFacts.LastOf(ranked, next);
  }

  lemma CountedStep(summary: StatefulQuerySummary, judged: seq<Judged>, next: Judged, after: Option<ResultWatermark>)
    requires summary == Counted(summary.page, judged, after)
    ensures Tally(summary, next, after) == Counted(Tally(summary, next, after).page, judged + [next], after)
  {
    hide InRangeOf, EligibleOf, CountOf;
    InRangeStep(judged, next);
    assert InRangeOf(judged) + [] == InRangeOf(judged);
    EligibleStep(InRangeOf(judged), next.ranked, after);
    PageFacts.EligibleIsShorter(InRangeOf(judged), after);
  }

  lemma EligibleGrows(judged: seq<Judged>, next: Judged, after: Option<ResultWatermark>)
    ensures EligibleOf(InRangeOf(judged + [next]), after)
         == if next.decision != OutOfRange && Past(after, next.ranked.key)
            then EligibleOf(InRangeOf(judged), after) + [next.ranked] else EligibleOf(InRangeOf(judged), after)
  {
    hide InRangeOf, EligibleOf, CountOf;
    InRangeStep(judged, next);
    assert InRangeOf(judged) + [] == InRangeOf(judged);
    EligibleStep(InRangeOf(judged), next.ranked, after);
    assert EligibleOf(InRangeOf(judged), after) + [] == EligibleOf(InRangeOf(judged), after);
  }

  /** Judges one match: counts it and, when eligible, offers it to the heap. */
  method ProcessMatch(frozen: FrozenCandidate, found: ScanMatch, observation: TimestampObservation,
                      binding: QueryBinding, after: Option<ResultWatermark>, heap: MaxHeap<Registered>,
                      summary: StatefulQuerySummary, ghost judged: seq<Judged>)
    returns (next: StatefulQuerySummary, error: Option<StatefulQueryError>)
    requires observation == Observe(frozen.parser, frozen.bytes, found)
    requires Tracks(summary, heap, judged, after, binding.maxResults)
    requires PageFacts.DistinctJudged(judged + [Judge(binding, frozen.candidate, frozen.parser, frozen.bytes, found)])
    modifies heap
    ensures error.None? ==>
              var j := Judge(binding, frozen.candidate, frozen.parser, frozen.bytes, found);
              next == Tally(summary, j, after) && Tracks(next, heap, judged + [j], after, binding.maxResults)
    ensures error.Some? ==>
              Refused(ReferenceOf(binding, frozen.candidate.snapshot, found), error.value)
  {
    hide InRangeOf, EligibleOf, CountOf, Earliest, Observe, Counted, PageFacts.DistinctJudged, MatchReferenceData.Valid;
    var decision := RangeOf(binding).Classify(observation);
    var key := KeyOf(frozen.candidate, observation.timestamp, found);
    ghost var j := Judge(binding, frozen.candidate, frozen.parser, frozen.bytes, found);
    CountedStep(summary, judged, j, after);
    EligibleGrows(judged, j, after);
    error := None;
    if decision == OutOfRange {
      next := summary.(page := summary.page.(filteredOutMatches := summary.page.filteredOutMatches + 1));
      return;
    }
    var page := summary.page;
    match decision {
      case UnknownTimestamp => page := page.(unknownTimestampMatches := page.unknownTimestampMatches + 1);
      case MalformedTimestamp => page := page.(malformedTimestampMatches := page.malformedTimestampMatches + 1);
      case _ =>
    }
    if after.Some? && !Precedes(after.value, key) {
      next := StatefulQuerySummary(page, summary.skippedBeforeWatermark + 1);
      return;
    }
    next := StatefulQuerySummary(page.(eligibleMatches := page.eligibleMatches + 1), summary.skippedBeforeWatermark);
    var reference := ReferenceOf(binding, frozen.candidate.snapshot, found);
    if !reference.Valid() {
      return next, Some(State(reference.Refusal()));
    }
    EligibleKeysDistinct(judged + [j], after);
    KeepEarliest(heap,
                 Keyed(key, Registered(ValueOf(frozen.candidate.snapshot, observation.timestamp, found), reference)),
                 binding.maxResults, EligibleOf(InRangeOf(judged), after));
  }

  lemma EligibleKeysDistinct(judged: seq<Judged>, after: Option<ResultWatermark>)
    requires PageFacts.DistinctJudged(judged)
    ensures DistinctKeys(EligibleOf(InRangeOf(judged), after))
  {
    PageFacts.InRangeDistinct(judged);
    PageFacts.EligibleDistinct(InRangeOf(judged), after);
  }

  /** Reads the line prefix of one match and lets the timestamp rule look at it. */
  method ObserveMatch(frozen: FrozenCandidate, found: ScanMatch, prefixFile: Option<Scanner.Reader>)
    returns (r: Result<TimestampObservation, StatefulQueryError>)
    requires prefixFile.Some? <==> frozen.parser.Some?
    requires prefixFile.Some? ==> prefixFile.value.Valid() && frozen.bytes <= prefixFile.value.data
    requires found.lineStartOffset < |frozen.bytes|
    modifies if prefixFile.Some? then {prefixFile.value} else {}
    ensures r.Ok? ==> r.value == Observe(frozen.parser, frozen.bytes, found)
    ensures r.Err? ==> r.error == IoFailed && prefixFile.Some? && prefixFile.value.faulty
    ensures prefixFile.Some? ==> prefixFile.value.Valid()
  {
    hide LinePrefix;
    match frozen.parser {
      case None => return Ok(TimestampObservation(None, false));
      case Some(parser) =>
        var prefix := ReadLinePrefix(prefixFile.value, found.lineStartOffset, frozen.bytes, parser.prefixBytes);
        if prefix.Err? {
          return Err(prefix.error);
        }
        return Ok(parser.observe(prefix.value));
    }
  }

  /** Offers every match of one chunk to the heap. */
  method ProcessMatches(frozen: FrozenCandidate, matches: seq<ScanMatch>, binding: QueryBinding,
                        after: Option<ResultWatermark>, heap: MaxHeap<Registered>, summary: StatefulQuerySummary,
                        steady: bool, ghost judged: seq<Judged>)
    returns (next: StatefulQuerySummary, error: Option<StatefulQueryError>)
    requires Tracks(summary, heap, judged, after, binding.maxResults)
    requires PageFacts.DistinctJudged(judged
                                      + JudgeAll(binding, frozen.candidate, frozen.parser, frozen.bytes, matches))
    requires forall i :: 0 <= i < |matches| ==> matches[i].lineStartOffset < |frozen.bytes|
    modifies heap
    ensures error.None? ==>
              var j := JudgeAll(binding, frozen.candidate, frozen.parser, frozen.bytes, matches);
              Tracks(next, heap, judged + j, after, binding.maxResults) && SameScan(summary, next)
    ensures error.Some? ==> ProcessingFailed(frozen, matches, binding, steady, error.value)
  {
    hide Judge, JudgeAll, PageFacts.DistinctJudged, Tracks, MatchReferenceData.Valid;
    next, error := summary, None;
    if matches == [] {
      NothingJudged(binding, frozen, judged);
      return;
    }
    var prefixFile: Option<Scanner.Reader> := None;
    if frozen.parser.Some? {
      var file := OpenSnapshotFile(frozen, steady);
      if file.Err? {
        return next, Some(file.error);
      }
      var interruptions: nat := *;
      var reader := new Scanner.Reader(file.value, !steady, interruptions);
      prefixFile := Some(reader);
    }
    NothingJudged(binding, frozen, judged);
    for i := 0 to |matches|
      invariant prefixFile.Some? <==> frozen.parser.Some?
      invariant prefixFile.Some? ==>
                  fresh(prefixFile.value) && prefixFile.value.Valid() && frozen.bytes <= prefixFile.value.data
                  && prefixFile.value.faulty == !steady
      invariant Tracks(next, heap,
                       judged + JudgeAll(binding, frozen.candidate, frozen.parser, frozen.bytes, matches[..i]), after,
                       binding.maxResults)
      invariant SameScan(summary, next) && error.None?
    {
      JudgedOneMore(binding, frozen, judged, matches, i);
      next, error := ProcessNext(frozen, matches, i, prefixFile, binding, after, heap, next, steady,
                                 judged + JudgeAll(binding, frozen.candidate, frozen.parser, frozen.bytes,
                                                   matches[..i]));
      if error.Some? {
        return;
      }
    }
    assert matches[..|matches|] == matches;
  }

  method ProcessNext(frozen: FrozenCandidate, matches: seq<ScanMatch>, i: nat, prefixFile: Option<Scanner.Reader>,
                     binding: QueryBinding, after: Option<ResultWatermark>, heap: MaxHeap<Registered>,
                     summary: StatefulQuerySummary, steady: bool, ghost before: seq<Judged>)
    returns (next: StatefulQuerySummary, error: Option<StatefulQueryError>)
    requires i < |matches| && matches[i].lineStartOffset < |frozen.bytes|
    requires prefixFile.Some? <==> frozen.parser.Some?
    requires prefixFile.Some? ==>
               && prefixFile.value.Valid() && frozen.bytes <= prefixFile.value.data
               && prefixFile.value.faulty == !steady
    requires Tracks(summary, heap, before, after, binding.maxResults)
    requires PageFacts.DistinctJudged(before
                                      + [Judge(binding, frozen.candidate, frozen.parser, frozen.bytes, matches[i])])
    modifies heap, if prefixFile.Some? then {prefixFile.value} else {}
    ensures prefixFile.Some? ==> prefixFile.value.Valid()
    ensures error.None? ==>
              && Tracks(next, heap,
                        before + [Judge(binding, frozen.candidate, frozen.parser, frozen.bytes, matches[i])], after,
                        binding.maxResults)
              && SameScan(summary, next)
    ensures error.Some? ==> ProcessingFailed(frozen, matches, binding, steady, error.value)
  {
    hide PageFacts.DistinctJudged, Counted, Observe, MatchReferenceData.Valid, InRangeOf, EligibleOf, Earliest;
    var observed := ObserveMatch(frozen, matches[i], prefixFile);
    if observed.Err? {
      return summary, Some(observed.error);
    }
    next, error := ProcessMatch(frozen, matches[i], observed.value, binding, after, heap, summary, before);
  }

  /** Judging matches changes no scan counter. */
  predicate SameScan(before: StatefulQuerySummary, after: StatefulQuerySummary) {
    var b, a := before.page, after.page;
    && a.filesConsidered == b.filesConsidered && a.filesScanned == b.filesScanned
    && a.bytesScanned == b.bytesScanned && a.linesScanned == b.linesScanned && a.rawMatches == b.rawMatches
    && a.returnedResults == b.returnedResults && a.returnedContentBytes == b.returnedContentBytes
  }

  /** The reference is invalid, and this is the error it is refused with. */
  predicate Refused(reference: MatchReferenceData, error: StatefulQueryError) {
    !reference.Valid() && error == State(reference.Refusal())
  }

  ghost predicate ProcessingFailed(frozen: FrozenCandidate, matches: seq<ScanMatch>, binding: QueryBinding,
                                   steady: bool, error: StatefulQueryError)
  {
    || (!steady && (error == SourceUnavailable || error == IoFailed))
    || exists i :: 0 <= i < |matches| && Refused(ReferenceOf(binding, frozen.candidate.snapshot, matches[i]), error)
  }

  lemma NothingJudged(binding: QueryBinding, frozen: FrozenCandidate, judged: seq<Judged>)
    ensures judged + JudgeAll(binding, frozen.candidate, frozen.parser, frozen.bytes, []) == judged
  {
  }

  lemma JudgedOneMore(binding: QueryBinding, frozen: FrozenCandidate, judged: seq<Judged>, matches: seq<ScanMatch>,
                      i: nat)
    requires i < |matches|
    requires PageFacts.DistinctJudged(judged
                                      + JudgeAll(binding, frozen.candidate, frozen.parser, frozen.bytes, matches))
    ensures var before := judged + JudgeAll(binding, frozen.candidate, frozen.parser, frozen.bytes, matches[..i]);
            var next := before + [Judge(binding, frozen.candidate, frozen.parser, frozen.bytes, matches[i])];
            && next == judged + JudgeAll(binding, frozen.candidate, frozen.parser, frozen.bytes, matches[..i + 1])
            && PageFacts.DistinctJudged(next)
  {
    hide Judge, JudgeAll, PageFacts.DistinctJudged;
    var upTo, later := matches[..i + 1], matches[i + 1..];
    OneMoreJudged(binding, frozen, matches, i);
    PageFacts.JudgeAllAppend(binding, frozen, upTo, later);
    assert upTo + later == matches;
    var some := JudgeAll(binding, frozen.candidate, frozen.parser, frozen.bytes, upTo);
    var more := JudgeAll(binding, frozen.candidate, frozen.parser, frozen.bytes, later);
    Regroup(judged, some, more);
    FirstAreDistinct(judged + some, more);
    Regroup(judged, JudgeAll(binding, frozen.candidate, frozen.parser, frozen.bytes, matches[..i]),
            [Judge(binding, frozen.candidate, frozen.parser, frozen.bytes, matches[i])]);
  }

  lemma OneMoreJudged(binding: QueryBinding, frozen: FrozenCandidate, matches: seq<ScanMatch>, i: nat)
    requires i < |matches|
    ensures JudgeAll(binding, frozen.candidate, frozen.parser, frozen.bytes, matches[..i + 1])
         == JudgeAll(binding, frozen.candidate, frozen.parser, frozen.bytes, matches[..i])
            + [Judge(binding, frozen.candidate, frozen.parser, frozen.bytes, matches[i])]
  {
    hide Judge;
    assert matches[..i + 1][..i] == matches[..i];
  }

  lemma FirstAreDistinct(a: seq<Judged>, b: seq<Judged>)
    requires PageFacts.DistinctJudged(a + b)
    ensures PageFacts.DistinctJudged(a)
  {
    assert forall k :: 0 <= k < |a| ==> (a + b)[k] == a[k];
  }

  // ---------- scanning one candidate ----------

  /** Snapshot sizes come from signed 64-bit file sizes. */
  const FILE_SIZE_LIMIT: int := 0x8000_0000_0000_0000

  /** What taking a snapshot guarantees. */
  ghost predicate SaneSnapshot(frozen: FrozenCandidate) {
    var snapshot := frozen.candidate.snapshot;
    && |frozen.bytes| == snapshot.sizeAtSnapshot < FILE_SIZE_LIMIT
    && 0 < |snapshot.sourceId| <= MAX_SOURCE_ID_CHARS
    && 0 < |snapshot.fileId| <= MAX_FILE_ID_CHARS
    && ValidRelativePath(snapshot.relativePath)
  }

  /** A located match makes a valid reference. */
  lemma ReferenceValid(binding: QueryBinding, limits: LimitsConfig, frozen: FrozenCandidate, found: ScanMatch)
    requires binding.Valid() && SaneSnapshot(frozen)
    requires MatchFacts.Located(LineQueryOf(binding, limits), frozen.bytes, found)
    ensures ReferenceOf(binding, frozen.candidate.snapshot, found).Valid()
    ensures found.lineStartOffset < |frozen.bytes|
  {
    hide NewlineCount, OccursAt;
  }

  lemma ReferencesValid(binding: QueryBinding, limits: LimitsConfig, frozen: FrozenCandidate, found: seq<ScanMatch>)
    requires binding.Valid() && SaneSnapshot(frozen)
    requires MatchFacts.AllLocated(LineQueryOf(binding, limits), frozen.bytes, found)
    ensures forall i :: 0 <= i < |found| ==> ReferenceOf(binding, frozen.candidate.snapshot, found[i]).Valid()
  {
    hide MatchReferenceData.Valid, SaneSnapshot, QueryBinding.Valid, MatchFacts.Located;
    forall i | 0 <= i < |found|
      ensures ReferenceOf(binding, frozen.candidate.snapshot, found[i]).Valid()
    {
      ReferenceValid(binding, limits, frozen, found[i]);
    }
  }

  /** The errors scanning may end with; none of them is about scan positions. */
  predicate PageError(binding: QueryBinding, limits: LimitsConfig, steady: bool, error: StatefulQueryError) {
    || (error == Scan(InvalidLimits(KeywordLength)) && |binding.keyword| > limits.maxLineBytes)
    || (!steady && (error == SourceUnavailable || error == IoFailed || error == Scan(ScanError.Io)
                    || error == QueryCancelled || error == QueryDeadlineExceeded))
  }

  lemma ChunkRequestValid(binding: QueryBinding, limits: LimitsConfig, position: ScanPosition, budget: nat)
    requires binding.Askable() && limits.Valid() && position.lineNumber > 0 && 0 < budget <= MAX_SCAN_BYTES
    ensures FileChunks.ChunkRequest(LineQueryOf(binding, limits), position, budget).Validate()
         == if |binding.keyword| > limits.maxLineBytes then Some(InvalidLimits(KeywordLength)) else None
  {
    FileChunks.ChunkContentFits(LineQueryOf(binding, limits), position, budget);
  }

  /** The matches of one file judged so far. */
  function JudgedSoFar(binding: QueryBinding, limits: LimitsConfig, frozen: FrozenCandidate, judged: seq<Judged>,
                       position: ScanPosition): seq<Judged>
    requires position.byteOffset <= |frozen.bytes|
  {
    judged + JudgeAll(binding, frozen.candidate, frozen.parser, frozen.bytes,
                      FileChunks.MatchesBefore(LineQueryOf(binding, limits), frozen.bytes, position))
  }

  /** The page counters after a chunk. */
  function Accumulate(summary: StatefulQuerySummary, o: ScanOutcome): StatefulQuerySummary {
    summary.(page := summary.page.(
      bytesScanned := summary.page.bytesScanned + o.bytesScanned,
      linesScanned := summary.page.linesScanned + o.linesScanned,
      rawMatches := summary.page.rawMatches + |o.results|))
  }

  /** A chunk of the snapshot, read from a file that may have grown. */
  method ReadChunk(frozen: FrozenCandidate, binding: QueryBinding, limits: LimitsConfig, position: ScanPosition,
                   bytesToRead: nat, budget: nat, steady: bool)
    returns (r: Result<ScanOutcome, StatefulQueryError>)
    requires binding.Askable() && limits.Valid() && SaneSnapshot(frozen)
    requires FileChunks.Reached(frozen.bytes, position) && position.byteOffset + bytesToRead <= |frozen.bytes|
    requires 0 < budget <= MAX_SCAN_BYTES
    ensures r.Err? ==> PageError(binding, limits, steady, r.error)
    ensures r.Ok? ==> |binding.keyword| <= limits.maxLineBytes
    ensures r.Ok? ==> ChunkOutcome(frozen, binding, limits, position, bytesToRead, budget, steady, r.value)
  {
    hide ScanWithin, SaneSnapshot, QueryBinding.Askable, LimitsConfig.Valid, ScanRequest.Validate, NewlineCount;
    var file := OpenSnapshotFile(frozen, steady);
    if file.Err? {
      return Err(file.error);
    }
    var ok, refused := SeekToScanPosition(file.value, position, |frozen.bytes|);
    SeekSucceeds(frozen.bytes, file.value, position);
    if !ok {
      return Err(refused);
    }
    var interruptions: nat := *;
    var data := file.value[position.byteOffset..position.byteOffset + bytesToRead];
    var reader := new Scanner.Reader(data, !steady, interruptions);
    var request := FileChunks.ChunkRequest(LineQueryOf(binding, limits), position, budget);
    ChunkRequestValid(binding, limits, position, budget);
    var scanned := Scanner.ScanReader(reader, request, !steady);
    SameChunk(frozen.bytes, file.value, position.byteOffset, bytesToRead);
    PositionsAreSmall(frozen, binding, limits, position, bytesToRead, budget);
    if scanned.Err? {
      return Err(Scan(scanned.error));
    }
    return Ok(scanned.value);
  }

  /** The chunk was scanned within `budget`, or the scan was interrupted. */
  ghost predicate ChunkOutcome(frozen: FrozenCandidate, binding: QueryBinding, limits: LimitsConfig,
                               position: ScanPosition, bytesToRead: nat, budget: nat, steady: bool, o: ScanOutcome)
    requires position.byteOffset + bytesToRead <= |frozen.bytes|
  {
    var request := FileChunks.ChunkRequest(LineQueryOf(binding, limits), position, budget);
    Scanner.Returns(request, frozen.bytes[position.byteOffset..position.byteOffset + bytesToRead], !steady, Ok(o))
  }

  lemma SeekSucceeds(bytes: seq<Byte>, file: seq<Byte>, position: ScanPosition)
    requires bytes <= file && FileChunks.Reached(bytes, position)
    ensures position.lineNumber > 0 && ChunkedScan.WholeLines(file[..Min(position.byteOffset, |bytes|)])
  {
    hide NewlineCount;
    assert file[..position.byteOffset] == bytes[..position.byteOffset];
  }

  lemma SameChunk(bytes: seq<Byte>, file: seq<Byte>, from: nat, length: nat)
    requires bytes <= file && from + length <= |bytes|
    ensures file[from..from + length] == bytes[from..from + length]
  {
  }

  lemma PositionsAreSmall(frozen: FrozenCandidate, binding: QueryBinding, limits: LimitsConfig, position: ScanPosition,
                          bytesToRead: nat, budget: nat)
    requires SaneSnapshot(frozen) && FileChunks.Reached(frozen.bytes, position)
    requires position.byteOffset + bytesToRead <= |frozen.bytes|
    ensures Scanner.PositionsFit(FileChunks.ChunkRequest(LineQueryOf(binding, limits), position, budget),
                                 frozen.bytes[position.byteOffset..position.byteOffset + bytesToRead])
  {
    hide NewlineCount;
    FileChunks.NewlineCountBound(frozen.bytes[..position.byteOffset]);
  }

  /** The counters after `scan`, with the heap holding the earliest eligible matches. */
  ghost predicate Follows(summary: StatefulQuerySummary, heap: MaxHeap<Registered>, considered: nat, scan: PageScan,
                          after: Option<ResultWatermark>, maxResults: nat)
    reads heap
  {
    && summary == SummaryOf(considered, scan, after)
    && multiset(heap.items) == multiset(Earliest(EligibleOf(InRangeOf(scan.judged), after), maxResults))
  }

  lemma FollowsIsTracks(summary: StatefulQuerySummary, heap: MaxHeap<Registered>, considered: nat, scan: PageScan,
                        after: Option<ResultWatermark>, maxResults: nat)
    ensures Follows(summary, heap, considered, scan, after, maxResults) <==>
              && Tracks(summary, heap, scan.judged, after, maxResults)
              && summary.page.filesConsidered == considered
              && summary.page.filesScanned == scan.filesScanned
              && summary.page.bytesScanned == scan.bytesScanned
              && summary.page.linesScanned == scan.linesScanned
              && summary.page.rawMatches == |scan.judged|
              && summary.page.returnedResults == 0 && summary.page.returnedContentBytes == 0
  {
    hide InRangeOf, EligibleOf, CountOf, Earliest;
  }

  /** The page while one candidate is scanned up to `position`. */
  function Partly(binding: QueryBinding, limits: LimitsConfig, frozen: FrozenCandidate, before: PageScan,
                  position: ScanPosition): PageScan
    requires position.byteOffset <= |frozen.bytes|
  {
    PageScan(JudgedSoFar(binding, limits, frozen, before.judged, position),
             before.filesScanned + 1,
             before.bytesScanned + position.byteOffset,
             before.linesScanned + NewlineCount(frozen.bytes[..position.byteOffset]),
             false)
  }

  /** The page with one more chunk. */
  function WithChunk(binding: QueryBinding, frozen: FrozenCandidate, scan: PageScan, o: ScanOutcome): PageScan {
    PageScan(scan.judged + JudgeAll(binding, frozen.candidate, frozen.parser, frozen.bytes, o.results),
             scan.filesScanned,
             scan.bytesScanned + o.bytesScanned,
             scan.linesScanned + o.linesScanned,
             false)
  }

  /** What is known of the candidates scanned before this one. */
  ghost predicate Earlier(before: PageScan, earlier: seq<FrozenCandidate>, frozen: FrozenCandidate) {
    && PageFacts.DistinctJudged(before.judged) && PageFacts.KeysOf(before.judged, earlier)
    && PageFacts.DistinctIndexes(earlier + [frozen])
  }

  lemma ChunkJudgedDistinct(binding: QueryBinding, limits: LimitsConfig, frozen: FrozenCandidate, before: PageScan,
                            earlier: seq<FrozenCandidate>, position: ScanPosition, length: nat, budget: nat,
                            steady: bool, o: ScanOutcome)
    requires binding.Askable() && limits.Valid() && SaneSnapshot(frozen) && Earlier(before, earlier, frozen)
    requires FileChunks.Reached(frozen.bytes, position) && position.byteOffset + length <= |frozen.bytes|
    requires |binding.keyword| <= limits.maxLineBytes
    requires ChunkOutcome(frozen, binding, limits, position, length, budget, steady, o)
    ensures PageFacts.DistinctJudged(WithChunk(binding, frozen, Partly(binding, limits, frozen, before, position),
                                               o).judged)
    ensures MatchFacts.AllLocated(LineQueryOf(binding, limits), frozen.bytes, o.results)
    ensures forall i :: 0 <= i < |o.results| ==> o.results[i].lineStartOffset < |frozen.bytes|
  {
    hide ScanWithin, SaneSnapshot, JudgeAll, PageFacts.DistinctJudged, PageFacts.KeysOf, PageFacts.DistinctIndexes;
    hide FileChunks.Reached, NewlineCount, MatchReferenceData.Valid, MatchFacts.AllLocated, PageFacts.LinesIncrease,
         TerminatedMatches;
    var query := LineQueryOf(binding, limits);
    var request := FileChunks.ChunkRequest(query, position, budget);
    var chunk := frozen.bytes[position.byteOffset..position.byteOffset + length];
    var read: nat :| o.results == ScanWithin(request, chunk, read).results;
    FileChunks.ChunkCarriesOn(query, frozen.bytes, position, length, budget, read);
    LocatedStartInside(query, frozen.bytes, o.results);
    var so := FileChunks.MatchesBefore(query, frozen.bytes, position);
    PageFacts.JudgedStayDistinct(binding, earlier, frozen, before.judged, so + o.results);
    PageFacts.JudgeAllAppend(binding, frozen, so, o.results);
    Regroup(before.judged, JudgeAll(binding, frozen.candidate, frozen.parser, frozen.bytes, so),
                        JudgeAll(binding, frozen.candidate, frozen.parser, frozen.bytes, o.results));
  }

  lemma LocatedStartInside(query: LineQuery, bytes: seq<Byte>, found: seq<ScanMatch>)
    requires query.keyword != [] && MatchFacts.AllLocated(query, bytes, found)
    ensures forall i :: 0 <= i < |found| ==> found[i].lineStartOffset < |bytes|
  {
    hide NewlineCount, OccursAt;
  }

  /** Reads, counts and judges one chunk. */
  method ScanOneChunk(frozen: FrozenCandidate, binding: QueryBinding, limits: LimitsConfig,
                      after: Option<ResultWatermark>, position: ScanPosition, length: nat, budget: nat,
                      heap: MaxHeap<Registered>, summary: StatefulQuerySummary, steady: bool, ghost considered: nat,
                      ghost before: PageScan, ghost earlier: seq<FrozenCandidate>)
    returns (next: StatefulQuerySummary, r: Result<ScanOutcome, StatefulQueryError>)
    requires binding.Valid() && limits.Valid() && SaneSnapshot(frozen) && Earlier(before, earlier, frozen)
    requires FileChunks.Reached(frozen.bytes, position) && position.byteOffset + length <= |frozen.bytes|
    requires 0 < budget <= MAX_SCAN_BYTES
    requires Follows(summary, heap, considered, Partly(binding, limits, frozen, before, position), after,
                     binding.maxResults)
    modifies heap
    ensures r.Err? ==> PageError(binding, limits, steady, r.error)
    ensures r.Ok? ==>
              && ChunkOutcome(frozen, binding, limits, position, length, budget, steady, r.value)
              && Follows(next, heap, considered,
                         WithChunk(binding, frozen, Partly(binding, limits, frozen, before, position), r.value),
                         after, binding.maxResults)
  {
    hide ScanWithin, SaneSnapshot, JudgeAll, PageFacts.DistinctJudged, FileChunks.Reached, NewlineCount, Follows,
         Tracks;
    hide MatchReferenceData.Valid, Earlier, QueryBinding.Valid, LimitsConfig.Valid, ChunkOutcome, JudgedSoFar;
    ghost var scan := Partly(binding, limits, frozen, before, position);
    FollowsIsTracks(summary, heap, considered, scan, after, binding.maxResults);
    next := summary;
    ValidIsAskable(binding);
    r := ReadChunk(frozen, binding, limits, position, length, budget, steady);
    if r.Err? {
      return;
    }
    var o := r.value;
    ChunkJudgedDistinct(binding, limits, frozen, before, earlier, position, length, budget, steady, o);
    ReferencesValid(binding, limits, frozen, o.results);
    next := Accumulate(summary, o);
    AccumulatedTracks(summary, o, heap, scan.judged, after, binding.maxResults);
    var error;
    next, error := ProcessMatches(frozen, o.results, binding, after, heap, next, steady, scan.judged);
    if error.Some? {
      return next, Err(error.value);
    }
    PageFacts.JudgedLength(binding, frozen, o.results);
    FollowsIsTracks(next, heap, considered, WithChunk(binding, frozen, scan, o), after, binding.maxResults);
  }

  lemma AccumulatedTracks(summary: StatefulQuerySummary, o: ScanOutcome, heap: MaxHeap<Registered>, judged: seq<Judged>,
                          after: Option<ResultWatermark>, maxResults: nat)
    requires Tracks(summary, heap, judged, after, maxResults)
    ensures Tracks(Accumulate(summary, o), heap, judged, after, maxResults)
  {
    hide InRangeOf, EligibleOf, CountOf, Earliest;
  }

  lemma PartlyAtStart(binding: QueryBinding, limits: LimitsConfig, frozen: FrozenCandidate, before: PageScan)
    ensures Partly(binding, limits, frozen, before, START)
            == before.(filesScanned := before.filesScanned + 1, limited := false)
    ensures before.bytesScanned <= limits.maxScanBytesPerPage && frozen.bytes == [] ==>
              Partly(binding, limits, frozen, before, START) == ScanCandidate(binding, limits, frozen, before)
  {
    NothingBeforeStart(LineQueryOf(binding, limits), frozen.bytes[..0]);
    NothingJudged(binding, frozen, before.judged);
  }

  /** The page's byte budget ended exactly where this file's scan stands. */
  lemma PartlyLimited(binding: QueryBinding, limits: LimitsConfig, frozen: FrozenCandidate, before: PageScan,
                      position: ScanPosition)
    requires before.bytesScanned <= limits.maxScanBytesPerPage
    requires position.byteOffset == limits.maxScanBytesPerPage - before.bytesScanned < |frozen.bytes|
    ensures Partly(binding, limits, frozen, before, position).(limited := true)
            == ScanCandidate(binding, limits, frozen, before)
  {
    hide JudgeAll, TerminatedMatches, NewlineCount;
  }

  lemma ChunkFinishes(binding: QueryBinding, limits: LimitsConfig, frozen: FrozenCandidate, before: PageScan,
                      position: ScanPosition, o: ScanOutcome)
    requires before.bytesScanned <= limits.maxScanBytesPerPage && position.byteOffset <= |frozen.bytes|
    requires Finished(LineQueryOf(binding, limits), frozen.bytes, position,
                      limits.maxScanBytesPerPage - before.bytesScanned, o)
    ensures WithChunk(binding, frozen, Partly(binding, limits, frozen, before, position), o)
         == ScanCandidate(binding, limits, frozen, before).(limited := false)
  {
    hide JudgeAll, TerminatedMatches, NewlineCount, ScanFile;
    var so := FileChunks.MatchesBefore(LineQueryOf(binding, limits), frozen.bytes, position);
    PageFacts.JudgeAllAppend(binding, frozen, so, o.results);
    Regroup(before.judged, JudgeAll(binding, frozen.candidate, frozen.parser, frozen.bytes, so),
                        JudgeAll(binding, frozen.candidate, frozen.parser, frozen.bytes, o.results));
  }

  lemma ChunkContinues(binding: QueryBinding, limits: LimitsConfig, frozen: FrozenCandidate, before: PageScan,
                       position: ScanPosition, o: ScanOutcome, next: ScanPosition)
    requires before.bytesScanned <= limits.maxScanBytesPerPage && position.byteOffset <= |frozen.bytes|
    requires GoesOn(LineQueryOf(binding, limits), frozen.bytes, position,
                    limits.maxScanBytesPerPage - before.bytesScanned, o, next)
    ensures next.byteOffset <= |frozen.bytes|
    ensures WithChunk(binding, frozen, Partly(binding, limits, frozen, before, position), o)
         == Partly(binding, limits, frozen, before, next)
  {
    hide JudgeAll, TerminatedMatches, NewlineCount, ScanFile;
    var so := FileChunks.MatchesBefore(LineQueryOf(binding, limits), frozen.bytes, position);
    PageFacts.JudgeAllAppend(binding, frozen, so, o.results);
    Regroup(before.judged, JudgeAll(binding, frozen.candidate, frozen.parser, frozen.bytes, so),
                        JudgeAll(binding, frozen.candidate, frozen.parser, frozen.bytes, o.results));
  }

  /** An uninterrupted chunk is the chunk the loop reasons about. */
  lemma ChunkIsScan(binding: QueryBinding, limits: LimitsConfig, frozen: FrozenCandidate, position: ScanPosition,
                    allowance: nat, steady: bool, o: ScanOutcome)
    requires position.byteOffset <= |frozen.bytes| && position.byteOffset <= allowance
    requires ChunkOutcome(frozen, binding, limits, position, ChunkLength(frozen.bytes, position, allowance),
                          ChunkBudget(frozen.bytes, position, allowance), steady, o)
    ensures || o == ChunkScan(LineQueryOf(binding, limits), frozen.bytes, position, allowance)
            || (!steady && (o.stopReason == Cancelled || o.stopReason == DeadlineExceeded))
  {
    hide ScanWithin;
  }

  /** The flag for the page's byte budget is no part of what the counters and the heap follow. */
  lemma FollowsIgnoresFlag(summary: StatefulQuerySummary, heap: MaxHeap<Registered>, considered: nat, a: PageScan,
                           b: PageScan, after: Option<ResultWatermark>, maxResults: nat)
    requires Follows(summary, heap, considered, a, after, maxResults)
    requires a.(limited := true) == b.(limited := true)
    ensures Follows(summary, heap, considered, b, after, maxResults)
  {
    hide InRangeOf, EligibleOf, CountOf, Earliest;
  }

  /** Where the loop over one file goes after a chunk. */
  datatype Turn = Continue(position: ScanPosition) | FileDone | PageLimited | Failed(error: StatefulQueryError)

  function TurnTo(position: ScanPosition, next: Option<ScanPosition>): Turn {
    match ValidatedNextPosition(position, next)
    case Ok(at) => Continue(at)
    case Err(error) => Failed(error)
  }

  /** `match outcome.stop_reason`, where `pageBytes` are the bytes the page has scanned. */
  function NextTurn(fileSize: nat, limits: LimitsConfig, position: ScanPosition, o: ScanOutcome, pageBytes: nat): Turn {
    var reachedSnapshotEnd := position.byteOffset + o.bytesScanned >= fileSize;
    match o.stopReason
    case Complete => FileDone
    case Cancelled => Failed(QueryCancelled)
    case DeadlineExceeded => Failed(QueryDeadlineExceeded)
    case ScanByteLimit =>
      if reachedSnapshotEnd then FileDone
      else if pageBytes >= limits.maxScanBytesPerPage then PageLimited
      else TurnTo(position, o.nextPosition)
    case _ =>
      if reachedSnapshotEnd then FileDone else TurnTo(position, o.nextPosition)
  }

  /** One turn of the chunk loop, with its effect on counters and heap. */
  method ScanTurn(frozen: FrozenCandidate, binding: QueryBinding, limits: LimitsConfig, after: Option<ResultWatermark>,
                  position: ScanPosition, heap: MaxHeap<Registered>, summary: StatefulQuerySummary, steady: bool,
                  ghost considered: nat, ghost before: PageScan, ghost earlier: seq<FrozenCandidate>)
    returns (next: StatefulQuerySummary, turn: Turn)
    requires binding.Valid() && limits.Valid() && SaneSnapshot(frozen) && Earlier(before, earlier, frozen)
    requires before.bytesScanned <= limits.maxScanBytesPerPage
    requires Standing(LineQueryOf(binding, limits), frozen.bytes, position,
                      limits.maxScanBytesPerPage - before.bytesScanned)
    requires position.byteOffset < |frozen.bytes|
    requires Follows(summary, heap, considered, Partly(binding, limits, frozen, before, position), after,
                     binding.maxResults)
    modifies heap
    ensures match turn
            case Failed(error) => PageError(binding, limits, steady, error)
            case Continue(at) =>
              && Standing(LineQueryOf(binding, limits), frozen.bytes, at,
                          limits.maxScanBytesPerPage - before.bytesScanned)
              && position.byteOffset < at.byteOffset < |frozen.bytes|
              && Follows(next, heap, considered, Partly(binding, limits, frozen, before, at), after, binding.maxResults)
            case _ =>
              && Follows(next, heap, considered, ScanCandidate(binding, limits, frozen, before), after,
                         binding.maxResults)
              && (turn == PageLimited <==> ScanCandidate(binding, limits, frozen, before).limited)
  {
    hide ScanWithin, SaneSnapshot, JudgeAll, Follows, Tracks, Earlier, QueryBinding.Valid, NewlineCount, SummaryOf;
    hide ChunkOutcome, JudgedSoFar, ChunkScan, ScanFile, Finished;
    next := summary;
    var interrupted := CheckInterrupted(steady);
    if interrupted.Some? {
      return next, Failed(interrupted.value);
    }
    ghost var scan := Partly(binding, limits, frozen, before, position);
    ghost var whole := ScanCandidate(binding, limits, frozen, before);
    ghost var allowance := limits.maxScanBytesPerPage - before.bytesScanned;
    FollowsIsTracks(summary, heap, considered, scan, after, binding.maxResults);
    var remainingPageBytes := SaturatingSub(limits.maxScanBytesPerPage, summary.page.bytesScanned);
    if remainingPageBytes == 0 {
      PartlyLimited(binding, limits, frozen, before, position);
      FollowsIgnoresFlag(next, heap, considered, scan, whole, after, binding.maxResults);
      return next, PageLimited;
    }
    var snapshotRemaining := |frozen.bytes| - position.byteOffset;
    var bytesToRead := Min(snapshotRemaining, remainingPageBytes);
    var fullyReadsSnapshot := bytesToRead == snapshotRemaining;
    var scanBudget := if fullyReadsSnapshot then Min(bytesToRead + 1, MAX_SCAN_BYTES) else bytesToRead;
    var r;
    next, r := ScanOneChunk(frozen, binding, limits, after, position, bytesToRead, scanBudget, heap, summary, steady,
                            considered, before, earlier);
    if r.Err? {
      return next, Failed(r.error);
    }
    var o := r.value;
    ghost var after' := WithChunk(binding, frozen, scan, o);
    FollowsIsTracks(next, heap, considered, after', after, binding.maxResults);
    ChunkIsScan(binding, limits, frozen, position, allowance, steady, o);
    turn := NextTurn(|frozen.bytes|, limits, position, o, next.page.bytesScanned);
    if o == ChunkScan(LineQueryOf(binding, limits), frozen.bytes, position, allowance) {
      TurnFollows(binding, limits, frozen, before, position, o, turn);
      if turn.FileDone? || turn.PageLimited? {
        FollowsIgnoresFlag(next, heap, considered, after', whole, after, binding.maxResults);
      }
    }
  }

  /** The turn taken after an uninterrupted chunk. */
  lemma TurnFollows(binding: QueryBinding, limits: LimitsConfig, frozen: FrozenCandidate, before: PageScan,
                    position: ScanPosition, o: ScanOutcome, turn: Turn)
    requires before.bytesScanned <= limits.maxScanBytesPerPage
    requires Standing(LineQueryOf(binding, limits), frozen.bytes, position,
                      limits.maxScanBytesPerPage - before.bytesScanned)
    requires o == ChunkScan(LineQueryOf(binding, limits), frozen.bytes, position,
                            limits.maxScanBytesPerPage - before.bytesScanned)
    requires turn == NextTurn(|frozen.bytes|, limits, position, o,
                              before.bytesScanned + position.byteOffset + o.bytesScanned)
    ensures !turn.Failed?
    ensures turn.Continue? ==>
              && Standing(LineQueryOf(binding, limits), frozen.bytes, turn.position,
                          limits.maxScanBytesPerPage - before.bytesScanned)
              && position.byteOffset < turn.position.byteOffset < |frozen.bytes|
              && WithChunk(binding, frozen, Partly(binding, limits, frozen, before, position), o)
                 == Partly(binding, limits, frozen, before, turn.position)
    ensures !turn.Continue? ==>
              && WithChunk(binding, frozen, Partly(binding, limits, frozen, before, position), o)
                 == ScanCandidate(binding, limits, frozen, before).(limited := false)
              && (turn == PageLimited <==> ScanCandidate(binding, limits, frozen, before).limited)
  {
    hide ChunkScan, JudgeAll, ScanFile, NewlineCount, JudgedSoFar, Finished, TerminatedMatches;
    var query, allowance := LineQueryOf(binding, limits), limits.maxScanBytesPerPage - before.bytesScanned;
    ChunkTurn(query, frozen.bytes, position, allowance);
    if turn.Continue? {
      ChunkContinues(binding, limits, frozen, before, position, o, turn.position);
    } else {
      ChunkFinishes(binding, limits, frozen, before, position, o);
    }
  }

  /** `'candidate`: scans one file in chunks. */
  method ScanCandidateFile(frozen: FrozenCandidate, binding: QueryBinding, limits: LimitsConfig,
                           after: Option<ResultWatermark>, heap: MaxHeap<Registered>, summary: StatefulQuerySummary,
                           steady: bool, ghost considered: nat, ghost before: PageScan,
                           ghost earlier: seq<FrozenCandidate>)
    returns (next: StatefulQuerySummary, limited: bool, error: Option<StatefulQueryError>)
    requires binding.Valid() && limits.Valid() && SaneSnapshot(frozen) && Earlier(before, earlier, frozen)
    requires before.bytesScanned <= limits.maxScanBytesPerPage && !before.limited
    requires Follows(summary, heap, considered, before, after, binding.maxResults)
    modifies heap
    ensures error.Some? ==> PageError(binding, limits, steady, error.value)
    ensures error.None? ==>
              && Follows(next, heap, considered, ScanCandidate(binding, limits, frozen, before), after,
                         binding.maxResults)
              && limited == ScanCandidate(binding, limits, frozen, before).limited
  {
    hide SaneSnapshot, Follows, Tracks, Earlier, QueryBinding.Valid, NewlineCount, SummaryOf, JudgedSoFar, ScanFile,
         Partly, ScanCandidate;
    next := summary.(page := summary.page.(filesScanned := summary.page.filesScanned + 1));
    limited, error := false, None;
    CountsFile(summary, next, heap, considered, binding, limits, frozen, before, after);
    var position := START;
    StandsAtStart(binding, limits, frozen, before);
    while position.byteOffset < |frozen.bytes|
      invariant Standing(LineQueryOf(binding, limits), frozen.bytes, position,
                         limits.maxScanBytesPerPage - before.bytesScanned)
      invariant Follows(next, heap, considered, Partly(binding, limits, frozen, before, position), after,
                        binding.maxResults)
      invariant position.byteOffset < |frozen.bytes| || frozen.bytes == []
      invariant !limited && error.None?
      decreases |frozen.bytes| - position.byteOffset
    {
      var turn;
      next, turn := ScanTurn(frozen, binding, limits, after, position, heap, next, steady, considered, before, earlier);
      match turn {
        case Continue(at) => position := at;
        case FileDone => return;
        case PageLimited =>
          limited := true;
          return;
        case Failed(failure) =>
          error := Some(failure);
          return;
      }
    }
    EmptyFile(binding, limits, frozen, before, position);
  }

  lemma CountsFile(summary: StatefulQuerySummary, next: StatefulQuerySummary, heap: MaxHeap<Registered>,
                   considered: nat, binding: QueryBinding, limits: LimitsConfig, frozen: FrozenCandidate,
                   before: PageScan, after: Option<ResultWatermark>)
    requires !before.limited && Follows(summary, heap, considered, before, after, binding.maxResults)
    requires next == summary.(page := summary.page.(filesScanned := summary.page.filesScanned + 1))
    ensures Follows(next, heap, considered, Partly(binding, limits, frozen, before, START), after, binding.maxResults)
  {
    hide InRangeOf, EligibleOf, CountOf, Earliest;
    PartlyAtStart(binding, limits, frozen, before);
  }

  lemma StandsAtStart(binding: QueryBinding, limits: LimitsConfig, frozen: FrozenCandidate, before: PageScan)
    requires limits.Valid() && before.bytesScanned <= limits.maxScanBytesPerPage
    ensures Standing(LineQueryOf(binding, limits), frozen.bytes, START,
                     limits.maxScanBytesPerPage - before.bytesScanned)
  {
    FileChunks.ReachedStart(frozen.bytes);
  }

  lemma EmptyFile(binding: QueryBinding, limits: LimitsConfig, frozen: FrozenCandidate, before: PageScan,
                  position: ScanPosition)
    requires frozen.bytes == [] && before.bytesScanned <= limits.maxScanBytesPerPage
    requires FileChunks.Reached(frozen.bytes, position)
    ensures Partly(binding, limits, frozen, before, position) == ScanCandidate(binding, limits, frozen, before)
    ensures !ScanCandidate(binding, limits, frozen, before).limited
  {
    PartlyAtStart(binding, limits, frozen, before);
    assert position == START;
  }

  // ---------- the page ----------

  method TruncateContent(content: seq<Byte>, maximum: nat) returns (cut: seq<Byte>)
    ensures cut == TruncateUtf8(content, maximum)
  {
    if |content| <= maximum {
      return content;
    }
    var boundary: nat := maximum;
    while boundary > 0 && !Utf8.CharBoundary(content, boundary)
      invariant boundary <= maximum
      invariant FloorBoundary(content, boundary) == FloorBoundary(content, maximum)
    {
      boundary := boundary - 1;
    }
    return content[..boundary];
  }

  function Prepended(results: seq<Ranked>, selection: Selection): Selection {
    selection.(results := results + selection.results)
  }

  /** What the budget does with the next result, `taken` being shown already. */
  lemma NextTaken(taken: seq<Ranked>, rest: seq<Ranked>, used: nat, maximum: nat)
    requires rest != []
    ensures var first, remaining := rest[0], SaturatingSub(maximum, used);
            Prepended(taken, TakeWithin(rest, used, maximum))
            == if remaining == 0 then Selection(taken, used, true)
               else if |first.value.value.content| > remaining then
                 Selection(taken + [Shortened(first, remaining)],
                           used + |TruncateUtf8(first.value.value.content, remaining)|, true)
               else
                 Prepended(taken + [first], TakeWithin(rest[1..], used + |first.value.value.content|, maximum))
  {
    hide TruncateUtf8;
    assert taken + [] == taken;
    if SaturatingSub(maximum, used) > 0 && |rest[0].value.value.content| <= SaturatingSub(maximum, used) {
      Regroup(taken, [rest[0]], TakeWithin(rest[1..], used + |rest[0].value.value.content|, maximum).results);
    }
  }

  lemma NoneLeft(taken: seq<Ranked>, used: nat, maximum: nat)
    ensures Prepended(taken, TakeWithin([], used, maximum)) == Selection(taken, used, false)
  {
    assert taken + [] == taken;
  }

  lemma NoneTaken(rest: seq<Ranked>, used: nat, maximum: nat)
    ensures Prepended([], TakeWithin(rest, used, maximum)) == TakeWithin(rest, used, maximum)
  {
    assert [] + TakeWithin(rest, used, maximum).results == TakeWithin(rest, used, maximum).results;
  }

  /** Sorts the heap and fills the content budget. */
  method FinishPage(heap: MaxHeap<Registered>, maxResults: nat, maxContentBytes: nat, pageScanLimited: bool,
                    summary: StatefulQuerySummary, ghost eligible: seq<Ranked>)
    returns (page: ScannedPage)
    requires DistinctKeys(eligible) && multiset(heap.items) == multiset(Earliest(eligible, maxResults))
    ensures page == PageOf(eligible, maxResults, maxContentBytes, pageScanLimited, summary)
  {
    hide Sorted, TruncateUtf8, TakeWithin, Prepended, Earliest;
    var rest := Sorted(heap.items);
    HeapIsEarliest(heap.items, eligible, maxResults);
    NoneTaken(rest, 0, maxContentBytes);
    var resultLimited := summary.page.eligibleMatches > maxResults;
    var contentLimited := false;
    var returnedContentBytes: nat := 0;
    var results: seq<Ranked> := [];
    while rest != []
      invariant Prepended(results, TakeWithin(rest, returnedContentBytes, maxContentBytes))
             == TakeWithin(Earliest(eligible, maxResults), 0, maxContentBytes)
      invariant !contentLimited
      decreases |rest|
    {
      var result := rest[0];
      NextTaken(results, rest, returnedContentBytes, maxContentBytes);
      var remaining := SaturatingSub(maxContentBytes, returnedContentBytes);
      if remaining == 0 {
        contentLimited := true;
        break;
      }
      if |result.value.value.content| > remaining {
        var content := TruncateContent(result.value.value.content, remaining);
        result := result.(value := result.value.(value := result.value.value.(content := content,
                                                                              contentTruncated := true)));
        contentLimited := true;
      }
      returnedContentBytes := returnedContentBytes + |result.value.value.content|;
      results := results + [result];
      if contentLimited {
        break;
      }
      rest := rest[1..];
    }
    NoneLeft(results, returnedContentBytes, maxContentBytes);
    return ScannedPage(results, StopReason(pageScanLimited, contentLimited, resultLimited),
                       summary.(page := summary.page.(returnedResults := |results|,
                                                      returnedContentBytes := returnedContentBytes)));
  }

  lemma HeapIsEarliest(items: seq<Ranked>, eligible: seq<Ranked>, maxResults: nat)
    requires DistinctKeys(eligible) && multiset(items) == multiset(Earliest(eligible, maxResults))
    ensures Sorted(items) == Earliest(eligible, maxResults)
  {
    SortedIsSorted(eligible);
    HeapOrderIrrelevant(items, Earliest(eligible, maxResults));
  }

  /** The candidate belongs to the bound query. */
  predicate Bound(binding: QueryBinding, candidate: CursorCandidate) {
    candidate.sourceIndex < |binding.sourceIds|
    && candidate.snapshot.sourceId == binding.sourceIds[candidate.sourceIndex]
  }

  /** One page, whatever the readers, the growth of the files and the order inside the heap. */
  method ScanPage(binding: QueryBinding, limits: LimitsConfig, frozen: seq<FrozenCandidate>,
                  after: Option<ResultWatermark>, steady: bool)
    returns (r: Result<ScannedPage, StatefulQueryError>)
    requires binding.Valid() && limits.Valid()
    requires forall i :: 0 <= i < |frozen| ==> SaneSnapshot(frozen[i])
    requires PageFacts.DistinctIndexes(frozen)
    ensures r.Ok? ==> r.value == Page(binding, limits, frozen, after)
    ensures r.Err? ==>
              || (r.error == FileLimitExceeded && |frozen| > limits.maxScanFilesPerQuery)
              || (r.error == InvalidCursorState
                  && exists i :: 0 <= i < |frozen| && !Bound(binding, frozen[i].candidate))
              || PageError(binding, limits, steady, r.error)
    ensures |frozen| > limits.maxScanFilesPerQuery ==> r == Err(FileLimitExceeded)
  {
    hide SaneSnapshot, Follows, Tracks, QueryBinding.Valid, LimitsConfig.Valid, ScanCandidate,
         PageFacts.DistinctIndexes;
    if |frozen| > limits.maxScanFilesPerQuery {
      return Err(FileLimitExceeded);
    }
    var summary := StatefulQuerySummary(QuerySummary(|frozen|, 0, 0, 0, 0, 0, 0, 0, 0, 0, 0), 0);
    var earliest := new MaxHeap<Registered>();
    var pageScanLimited := false;
    NothingScanned(binding, limits, frozen, after, summary, earliest);
    var i := 0;
    while i < |frozen| && !pageScanLimited
      invariant 0 <= i <= |frozen|
      invariant fresh(earliest)
      invariant pageScanLimited == ScanAll(binding, limits, frozen[..i]).limited
      invariant Follows(summary, earliest, |frozen|, ScanAll(binding, limits, frozen[..i]), after, binding.maxResults)
      decreases |frozen| - i
    {
      var interrupted := CheckInterrupted(steady);
      if interrupted.Some? {
        return Err(interrupted.value);
      }
      if !Bound(binding, frozen[i].candidate) {
        return Err(InvalidCursorState);
      }
      ghost var before := ScanAll(binding, limits, frozen[..i]);
      NextCandidate(binding, limits, frozen, i);
      var error;
      summary, pageScanLimited, error := ScanCandidateFile(frozen[i], binding, limits, after, earliest, summary, steady,
                                                           |frozen|, before, frozen[..i]);
      if error.Some? {
        return Err(error.value);
      }
      i := i + 1;
    }
    LimitedStays(binding, limits, frozen, i);
    FollowsEnd(binding, limits, frozen, after, summary, earliest);
    var page := FinishPage(earliest, binding.maxResults, limits.maxReturnedContentBytes, pageScanLimited, summary,
                           EligibleOf(InRangeOf(ScanAll(binding, limits, frozen).judged), after));
    return Ok(page);
  }

  lemma NothingScanned(binding: QueryBinding, limits: LimitsConfig, frozen: seq<FrozenCandidate>,
                       after: Option<ResultWatermark>, summary: StatefulQuerySummary, heap: MaxHeap<Registered>)
    requires summary == StatefulQuerySummary(QuerySummary(|frozen|, 0, 0, 0, 0, 0, 0, 0, 0, 0, 0), 0)
             && heap.items == []
    ensures !ScanAll(binding, limits, frozen[..0]).limited
    ensures Follows(summary, heap, |frozen|, ScanAll(binding, limits, frozen[..0]), after, binding.maxResults)
  {
  }

  lemma NextCandidate(binding: QueryBinding, limits: LimitsConfig, frozen: seq<FrozenCandidate>, i: nat)
    requires i < |frozen| && PageFacts.DistinctIndexes(frozen)
    requires !ScanAll(binding, limits, frozen[..i]).limited
    ensures ScanAll(binding, limits, frozen[..i + 1])
            == ScanCandidate(binding, limits, frozen[i], ScanAll(binding, limits, frozen[..i]))
    ensures Earlier(ScanAll(binding, limits, frozen[..i]), frozen[..i], frozen[i])
  {
    hide ScanCandidate;
    assert frozen[..i + 1][..i] == frozen[..i] && frozen[..i] + [frozen[i]] == frozen[..i + 1];
    assert PageFacts.DistinctIndexes(frozen[..i + 1]);
    assert PageFacts.DistinctIndexes(frozen[..i]);
    PageFacts.PageKeysDistinct(binding, limits, frozen[..i]);
  }

  /** Once the byte budget is used up, no further candidate is scanned. */
  lemma {:induction false} LimitedStays(binding: QueryBinding, limits: LimitsConfig, frozen: seq<FrozenCandidate>,
                                        i: nat)
    requires i <= |frozen| && (ScanAll(binding, limits, frozen[..i]).limited || i == |frozen|)
    ensures ScanAll(binding, limits, frozen) == ScanAll(binding, limits, frozen[..i])
    decreases |frozen|
  {
    hide ScanCandidate;
    if i == |frozen| {
      assert frozen[..i] == frozen;
    } else {
      var init := frozen[..|frozen| - 1];
      assert init[..i] == frozen[..i];
      LimitedStays(binding, limits, init, i);
    }
  }

  lemma FollowsEnd(binding: QueryBinding, limits: LimitsConfig, frozen: seq<FrozenCandidate>,
                   after: Option<ResultWatermark>, summary: StatefulQuerySummary, heap: MaxHeap<Registered>)
    requires PageFacts.DistinctIndexes(frozen)
    requires Follows(summary, heap, |frozen|, ScanAll(binding, limits, frozen), after, binding.maxResults)
    ensures var scan := ScanAll(binding, limits, frozen);
            var eligible := EligibleOf(InRangeOf(scan.judged), after);
            && DistinctKeys(eligible)
            && multiset(heap.items) == multiset(Earliest(eligible, binding.maxResults))
            && summary == SummaryOf(|frozen|, scan, after)
  {
    hide InRangeOf, EligibleOf, CountOf, Earliest, ScanAll;
    PageFacts.PageKeysDistinct(binding, limits, frozen);
    EligibleKeysDistinct(ScanAll(binding, limits, frozen).judged, after);
  }
}
