/**
 The stateless engine: the same scan without cursors or references. Whatever the readers do and however its
 heap is ordered, it returns exactly what a first stateful page returns.
 */
module QueryEngine {
  import opened Wrappers
  import opened Bytes
  import opened ScanSpec
  import opened Watermark
  import opened QueryState
  import opened PageSpec
  import opened CandidateScan
  import opened S = StatefulQuery
  import FileChunks
  import PageFacts
  import Pagination
  import Scanner
  import SessionReach

  datatype QueryPage = QueryPage(
    results: seq<QueryMatch>,
    truncated: bool,
    stopReason: QueryPageStopReason,
    summary: QuerySummary)

  type Plain = Keyed<QueryMatch>

  // ---------- results without references ----------

  function Stripped(x: Ranked): Plain {
    Keyed(x.key, x.value.value)
  }

  function StrippedAll(s: seq<Ranked>): (r: seq<Plain>)
    ensures |r| == |s|
    ensures forall i :: 0 <= i < |s| ==> r[i] == Stripped(s[i])
  {
    if s == [] then [] else StrippedAll(s[..|s| - 1]) + [Stripped(s[|s| - 1])]
  }

  function ValuesOf(s: seq<Ranked>): (r: seq<QueryMatch>)
    ensures |r| == |s|
    ensures forall i :: 0 <= i < |s| ==> r[i] == s[i].value.value
  {
    if s == [] then [] else ValuesOf(s[..|s| - 1]) + [s[|s| - 1].value.value]
  }

  /** What the stateless engine shows of a stateful page. */
  function Shown(page: ScannedPage): QueryPage {
    QueryPage(ValuesOf(page.results), page.stopReason != QueryPageStopReason.Complete, page.stopReason,
              page.summary.page)
  }

  /**
   A stateless query returns the beginning of the list, unchanged except for a last result cut for the content budget;
   it is marked truncated exactly when the snapshots exceed the byte budget or this is not the whole list.
   */
  lemma StatelessPage(binding: QueryBinding, limits: LimitsConfig, frozen: seq<FrozenCandidate>)
    requires binding.Askable() && limits.Valid() && PageFacts.DistinctIndexes(frozen)
    ensures var page, all := Page(binding, limits, frozen, None), Pagination.AllResults(binding, limits, frozen);
            var shown := Shown(page);
            && |shown.results| == |page.results| <= Min(|all|, binding.maxResults)
            && (forall i :: 0 <= i < |shown.results| ==> shown.results[i] == page.results[i].value.value)
            && Pagination.PageShows(page, all[..|shown.results|], limits.maxReturnedContentBytes)
            && (shown.truncated
                <==> Pagination.TotalSize(frozen) > limits.maxScanBytesPerPage || page.results != all)
  {
    hide Page, Pagination.AllResults, Pagination.TotalSize, Pagination.CutAtEnd;
    var page, all := Page(binding, limits, frozen, None), Pagination.AllResults(binding, limits, frozen);
    assert [] + all == all;
    Pagination.PageContinues(binding, limits, frozen, [], all);
    Pagination.ScanByteLimitExactly(binding, limits, frozen, None);
    var part := all[..|page.results|];
    if Pagination.CutAtEnd(page.results, part, limits.maxReturnedContentBytes) {
      SessionReach.CutDiffers(page.results, part, limits.maxReturnedContentBytes);
    }
    assert |page.results| == |all| ==> part == all;
  }

  lemma {:induction false} StrippedInsert(x: Ranked, s: seq<Ranked>)
    ensures InsertSorted(Stripped(x), StrippedAll(s)) == StrippedAll(InsertSorted(x, s))
  {
    if s != [] && !Precedes(x.key, s[0].key) {
      StrippedInsert(x, s[1..]);
      assert StrippedAll(s)[1..] == StrippedAll(s[1..]);
      assert StrippedAll([s[0]] + InsertSorted(x, s[1..])) == [Stripped(s[0])] + StrippedAll(InsertSorted(x, s[1..]));
    } else {
      assert StrippedAll([x] + s) == [Stripped(x)] + StrippedAll(s);
    }
  }

  /** Leaving the references out commutes with sorting. */
  lemma {:induction false} StrippedSorted(s: seq<Ranked>)
    ensures Sorted(StrippedAll(s)) == StrippedAll(Sorted(s))
  {
    if s != [] {
      hide InsertSorted;
      var init, last := s[..|s| - 1], s[|s| - 1];
      StrippedSorted(init);
      StrippedInsert(last, Sorted(init));
      assert StrippedAll(s)[..|s| - 1] == StrippedAll(init);
    } else {
      assert StrippedAll(s) == [];
    }
  }

  lemma StrippedEarliest(s: seq<Ranked>, k: nat)
    ensures Earliest(StrippedAll(s), k) == StrippedAll(Earliest(s, k))
  {
    hide Sorted;
    StrippedSorted(s);
    if |Sorted(s)| > k {
      assert StrippedAll(Sorted(s))[..k] == StrippedAll(Sorted(s)[..k]);
    }
  }

  lemma StrippedDistinct(s: seq<Ranked>)
    requires DistinctKeys(s)
    ensures DistinctKeys(StrippedAll(s))
  {
    hide StrippedAll;
  }

  // ---------- judging matches ----------

  function NoneSkipped(summary: QuerySummary): StatefulQuerySummary {
    StatefulQuerySummary(summary, 0)
  }

  /** The counters and the heap describe the judged matches. */
  ghost predicate Tallies(summary: QuerySummary, heap: MaxHeap<QueryMatch>, judged: seq<Judged>, maxResults: nat)
    reads heap
  {
    && NoneSkipped(summary) == Counted(summary, judged, None)
    && multiset(heap.items) == multiset(Earliest(StrippedAll(InRangeOf(judged)), maxResults))
  }

  lemma OneMoreInRange(judged: seq<Judged>, next: Judged)
    ensures StrippedAll(InRangeOf(judged + [next]))
         == if next.decision == OutOfRange then StrippedAll(InRangeOf(judged))
            else StrippedAll(InRangeOf(judged)) + [Stripped(next.ranked)]
  {
    hide InRangeOf, CountOf;
    InRangeStep(judged, next);
    assert InRangeOf(judged) + [] == InRangeOf(judged);
    assert next.decision != OutOfRange ==>
        (InRangeOf(judged) + [next.ranked])[..|InRangeOf(judged)|] == InRangeOf(judged);
  }

  /** Judges one match: counts it and, unless it is out of range, offers it to the heap. */
  method ProcessMatch(frozen: FrozenCandidate, found: ScanMatch, observation: TimestampObservation,
                      binding: QueryBinding, heap: MaxHeap<QueryMatch>, summary: QuerySummary,
                      ghost judged: seq<Judged>)
    returns (next: QuerySummary)
    requires observation == Observe(frozen.parser, frozen.bytes, found)
    requires Tallies(summary, heap, judged, binding.maxResults)
    requires PageFacts.DistinctJudged(judged + [Judge(binding, frozen.candidate, frozen.parser, frozen.bytes, found)])
    modifies heap
    ensures var j := Judge(binding, frozen.candidate, frozen.parser, frozen.bytes, found);
            && NoneSkipped(next) == Tally(NoneSkipped(summary), j, None)
            && Tallies(next, heap, judged + [j], binding.maxResults)
  {
    hide InRangeOf, CountOf, Earliest, Observe, Counted, PageFacts.DistinctJudged, StrippedAll;
    var decision := RangeOf(binding).Classify(observation);
    var key := KeyOf(frozen.candidate, observation.timestamp, found);
    ghost var j := Judge(binding, frozen.candidate, frozen.parser, frozen.bytes, found);
    CountedStep(NoneSkipped(summary), judged, j, None);
    OneMoreInRange(judged, j);
    if decision == OutOfRange {
      return summary.(filteredOutMatches := summary.filteredOutMatches + 1);
    }
    next := summary;
    match decision {
      case UnknownTimestamp => next := next.(unknownTimestampMatches := next.unknownTimestampMatches + 1);
      case MalformedTimestamp => next := next.(malformedTimestampMatches := next.malformedTimestampMatches + 1);
      case _ =>
    }
    next := next.(eligibleMatches := next.eligibleMatches + 1);
    PageFacts.InRangeDistinct(judged + [j]);
    StrippedDistinct(InRangeOf(judged + [j]));
    KeepEarliest(heap, Keyed(key, ValueOf(frozen.candidate.snapshot, observation.timestamp, found)), binding.maxResults,
                 StrippedAll(InRangeOf(judged)));
  }

  predicate SameCounters(before: QuerySummary, after: QuerySummary) {
    SameScan(NoneSkipped(before), NoneSkipped(after))
  }

  /** Offers every match of one chunk to the heap. */
  method ProcessMatches(frozen: FrozenCandidate, matches: seq<ScanMatch>, binding: QueryBinding,
                        heap: MaxHeap<QueryMatch>, summary: QuerySummary, steady: bool, ghost judged: seq<Judged>)
    returns (next: QuerySummary, error: Option<StatefulQueryError>)
    requires Tallies(summary, heap, judged, binding.maxResults)
    requires PageFacts.DistinctJudged(judged
                                      + JudgeAll(binding, frozen.candidate, frozen.parser, frozen.bytes, matches))
    requires forall i :: 0 <= i < |matches| ==> matches[i].lineStartOffset < |frozen.bytes|
    modifies heap
    ensures error.None? ==>
              var j := JudgeAll(binding, frozen.candidate, frozen.parser, frozen.bytes, matches);
              Tallies(next, heap, judged + j, binding.maxResults) && SameCounters(summary, next)
    ensures error.Some? ==> !steady && (error.value == SourceUnavailable || error.value == IoFailed)
  {
    hide Judge, JudgeAll, PageFacts.DistinctJudged, Tallies, Observe;
    next, error := summary, None;
    S.NothingJudged(binding, frozen, judged);
    if matches == [] {
      return;
    }
    var prefixFile: Option<Scanner.Reader> := None;
    if frozen.parser.Some? {
      var file := OpenSnapshotFile(frozen, steady);
      if file.Err? {
        return next, Some(file.error);
      }
      var interruptions: nat := *;
      var reader := new Scanner.Reader(file.value, !steady, interruptions);
      prefixFile := Some(reader);
    }
    for i := 0 to |matches|
      invariant prefixFile.Some? <==> frozen.parser.Some?
      invariant prefixFile.Some? ==>
                  fresh(prefixFile.value) && prefixFile.value.Valid() && frozen.bytes <= prefixFile.value.data
                  && prefixFile.value.faulty == !steady
      invariant Tallies(next, heap,
                        judged + JudgeAll(binding, frozen.candidate, frozen.parser, frozen.bytes, matches[..i]),
                        binding.maxResults)
      invariant SameCounters(summary, next) && error.None?
    {
      JudgedOneMore(binding, frozen, judged, matches, i);
      var observed := ObserveMatch(frozen, matches[i], prefixFile);
      if observed.Err? {
        return next, Some(observed.error);
      }
      next := ProcessMatch(frozen, matches[i], observed.value, binding, heap, next,
                           judged + JudgeAll(binding, frozen.candidate, frozen.parser, frozen.bytes, matches[..i]));
    }
    assert matches[..|matches|] == matches;
  }

  // ---------- scanning one candidate ----------

  /** The counters after `scan`, with the heap holding its earliest matches in range. */
  ghost predicate Reflects(summary: QuerySummary, heap: MaxHeap<QueryMatch>, considered: nat, scan: PageScan,
                           maxResults: nat)
    reads heap
  {
    && NoneSkipped(summary) == SummaryOf(considered, scan, None)
    && multiset(heap.items) == multiset(Earliest(StrippedAll(InRangeOf(scan.judged)), maxResults))
  }

  lemma ReflectsIsTallies(summary: QuerySummary, heap: MaxHeap<QueryMatch>, considered: nat, scan: PageScan,
                          maxResults: nat)
    ensures Reflects(summary, heap, considered, scan, maxResults) <==>
              && Tallies(summary, heap, scan.judged, maxResults)
              && summary.filesConsidered == considered && summary.filesScanned == scan.filesScanned
              && summary.bytesScanned == scan.bytesScanned && summary.linesScanned == scan.linesScanned
              && summary.rawMatches == |scan.judged|
              && summary.returnedResults == 0 && summary.returnedContentBytes == 0
  {
    hide InRangeOf, EligibleOf, CountOf, Earliest;
    PageFacts.EligibleIsShorter(InRangeOf(scan.judged), None);
  }

  lemma ReflectsIgnoresFlag(summary: QuerySummary, heap: MaxHeap<QueryMatch>, considered: nat, a: PageScan, b: PageScan,
                            maxResults: nat)
    requires Reflects(summary, heap, considered, a, maxResults) && a.(limited := true) == b.(limited := true)
    ensures Reflects(summary, heap, considered, b, maxResults)
  {
    hide InRangeOf, EligibleOf, CountOf, Earliest;
  }

  /** Reads, counts and judges one chunk. */
  method ScanOneChunk(frozen: FrozenCandidate, binding: QueryBinding, limits: LimitsConfig, position: ScanPosition,
                      length: nat, budget: nat, heap: MaxHeap<QueryMatch>, summary: QuerySummary, steady: bool,
                      ghost considered: nat, ghost before: PageScan, ghost earlier: seq<FrozenCandidate>)
    returns (next: QuerySummary, r: Result<ScanOutcome, StatefulQueryError>)
    requires binding.Askable() && limits.Valid() && SaneSnapshot(frozen) && Earlier(before, earlier, frozen)
    requires FileChunks.Reached(frozen.bytes, position) && position.byteOffset + length <= |frozen.bytes|
    requires 0 < budget <= MAX_SCAN_BYTES
    requires Reflects(summary, heap, considered, Partly(binding, limits, frozen, before, position), binding.maxResults)
    modifies heap
    ensures r.Err? ==> PageError(binding, limits, steady, r.error)
    ensures r.Ok? ==>
              && ChunkOutcome(frozen, binding, limits, position, length, budget, steady, r.value)
              && Reflects(next, heap, considered,
                          WithChunk(binding, frozen, Partly(binding, limits, frozen, before, position), r.value),
                          binding.maxResults)
  {
    hide SaneSnapshot, JudgeAll, PageFacts.DistinctJudged, FileChunks.Reached, NewlineCount, Reflects, Tallies;
    hide MatchReferenceData.Valid, Earlier, QueryBinding.Askable, LimitsConfig.Valid, ChunkOutcome, JudgedSoFar;
    ghost var scan := Partly(binding, limits, frozen, before, position);
    ReflectsIsTallies(summary, heap, considered, scan, binding.maxResults);
    next := summary;
    r := ReadChunk(frozen, binding, limits, position, length, budget, steady);
    if r.Err? {
      return;
    }
    var o := r.value;
    ChunkJudgedDistinct(binding, limits, frozen, before, earlier, position, length, budget, steady, o);
    next := next.(bytesScanned := next.bytesScanned + o.bytesScanned,
                  linesScanned := next.linesScanned + o.linesScanned,
                  rawMatches := next.rawMatches + |o.results|);
    AccumulatedTallies(summary, next, heap, scan.judged, binding.maxResults);
    var error;
    next, error := ProcessMatches(frozen, o.results, binding, heap, next, steady, scan.judged);
    if error.Some? {
      return next, Err(error.value);
    }
    PageFacts.JudgedLength(binding, frozen, o.results);
    ReflectsIsTallies(next, heap, considered, WithChunk(binding, frozen, scan, o), binding.maxResults);
  }

  lemma AccumulatedTallies(summary: QuerySummary, next: QuerySummary, heap: MaxHeap<QueryMatch>, judged: seq<Judged>,
                           maxResults: nat)
    requires Tallies(summary, heap, judged, maxResults)
    requires next == summary.(bytesScanned := next.bytesScanned, linesScanned := next.linesScanned,
                              rawMatches := next.rawMatches)
    ensures Tallies(next, heap, judged, maxResults)
  {
    hide InRangeOf, EligibleOf, CountOf, Earliest;
  }

  /** One turn of the chunk loop, with its effect on counters and heap. */
  method ScanTurn(frozen: FrozenCandidate, binding: QueryBinding, limits: LimitsConfig, position: ScanPosition,
                  heap: MaxHeap<QueryMatch>, summary: QuerySummary, steady: bool, ghost considered: nat,
                  ghost before: PageScan,
                  ghost earlier: seq<FrozenCandidate>) returns (next: QuerySummary, turn: Turn)
    requires binding.Askable() && limits.Valid() && SaneSnapshot(frozen) && Earlier(before, earlier, frozen)
    requires before.bytesScanned <= limits.maxScanBytesPerPage
    requires Standing(LineQueryOf(binding, limits), frozen.bytes, position,
                      limits.maxScanBytesPerPage - before.bytesScanned)
    requires position.byteOffset < |frozen.bytes|
    requires Reflects(summary, heap, considered, Partly(binding, limits, frozen, before, position), binding.maxResults)
    modifies heap
    ensures match turn
            case Failed(error) => PageError(binding, limits, steady, error)
            case Continue(at) =>
              && Standing(LineQueryOf(binding, limits), frozen.bytes, at,
                          limits.maxScanBytesPerPage - before.bytesScanned)
              && position.byteOffset < at.byteOffset < |frozen.bytes|
              && Reflects(next, heap, considered, Partly(binding, limits, frozen, before, at), binding.maxResults)
            case _ =>
              && Reflects(next, heap, considered, PageSpec.ScanCandidate(binding, limits, frozen, before),
                          binding.maxResults)
              && (turn == PageLimited <==> PageSpec.ScanCandidate(binding, limits, frozen, before).limited)
  {
    hide ScanWithin, SaneSnapshot, JudgeAll, Reflects, Tallies, Earlier, QueryBinding.Askable, NewlineCount, SummaryOf;
    hide ChunkOutcome, JudgedSoFar, ChunkScan, ScanFile, Finished;
    next := summary;
    var interrupted := CheckInterrupted(steady);
    if interrupted.Some? {
      return next, Failed(interrupted.value);
    }
    ghost var scan := Partly(binding, limits, frozen, before, position);
    ghost var whole := PageSpec.ScanCandidate(binding, limits, frozen, before);
    ghost var allowance := limits.maxScanBytesPerPage - before.bytesScanned;
    ReflectsIsTallies(summary, heap, considered, scan, binding.maxResults);
    var remainingPageBytes := SaturatingSub(limits.maxScanBytesPerPage, summary.bytesScanned);
    if remainingPageBytes == 0 {
      PartlyLimited(binding, limits, frozen, before, position);
      ReflectsIgnoresFlag(next, heap, considered, scan, whole, binding.maxResults);
      return next, PageLimited;
    }
    var snapshotRemaining := |frozen.bytes| - position.byteOffset;
    var bytesToRead := Min(snapshotRemaining, remainingPageBytes);
    var fullyReadsSnapshot := bytesToRead == snapshotRemaining;
    var scanBudget := if fullyReadsSnapshot then Min(bytesToRead + 1, MAX_SCAN_BYTES) else bytesToRead;
    var r;
    next, r := ScanOneChunk(frozen, binding, limits, position, bytesToRead, scanBudget, heap, summary, steady,
                            considered, before, earlier);
    if r.Err? {
      return next, Failed(r.error);
    }
    var o := r.value;
    ghost var more := WithChunk(binding, frozen, scan, o);
    ReflectsIsTallies(next, heap, considered, more, binding.maxResults);
    ChunkIsScan(binding, limits, frozen, position, allowance, steady, o);
    turn := NextTurn(|frozen.bytes|, limits, position, o, next.bytesScanned);
    if o == ChunkScan(LineQueryOf(binding, limits), frozen.bytes, position, allowance) {
      TurnFollows(binding, limits, frozen, before, position, o, turn);
      if turn.FileDone? || turn.PageLimited? {
        ReflectsIgnoresFlag(next, heap, considered, more, whole, binding.maxResults);
      }
    }
  }

  /** `'candidate`: scans one file in chunks. */
  method ScanCandidate(frozen: FrozenCandidate, binding: QueryBinding, limits: LimitsConfig, heap: MaxHeap<QueryMatch>,
                       summary: QuerySummary, steady: bool, ghost considered: nat, ghost before: PageScan,
                       ghost earlier: seq<FrozenCandidate>)
    returns (next: QuerySummary, limited: bool, error: Option<StatefulQueryError>)
    requires binding.Askable() && limits.Valid() && SaneSnapshot(frozen) && Earlier(before, earlier, frozen)
    requires before.bytesScanned <= limits.maxScanBytesPerPage && !before.limited
    requires Reflects(summary, heap, considered, before, binding.maxResults)
    modifies heap
    ensures error.Some? ==> PageError(binding, limits, steady, error.value)
    ensures error.None? ==>
              && Reflects(next, heap, considered, PageSpec.ScanCandidate(binding, limits, frozen, before),
                          binding.maxResults)
              && limited == PageSpec.ScanCandidate(binding, limits, frozen, before).limited
  {
    hide SaneSnapshot, Reflects, Tallies, Earlier, QueryBinding.Askable, NewlineCount, SummaryOf, JudgedSoFar, ScanFile,
         Partly, PageSpec.ScanCandidate;
    next := summary.(filesScanned := summary.filesScanned + 1);
    limited, error := false, None;
    CountsFile(summary, next, heap, considered, binding, limits, frozen, before);
    var position := START;
    StandsAtStart(binding, limits, frozen, before);
    while position.byteOffset < |frozen.bytes|
      invariant Standing(LineQueryOf(binding, limits), frozen.bytes, position,
                         limits.maxScanBytesPerPage - before.bytesScanned)
      invariant Reflects(next, heap, considered, Partly(binding, limits, frozen, before, position), binding.maxResults)
      invariant position.byteOffset < |frozen.bytes| || frozen.bytes == []
      invariant !limited && error.None?
      decreases |frozen.bytes| - position.byteOffset
    {
      var turn;
      next, turn := ScanTurn(frozen, binding, limits, position, heap, next, steady, considered, before, earlier);
      match turn {
        case Continue(at) => position := at;
        case FileDone => return;
        case PageLimited =>
          limited := true;
          return;
        case Failed(failure) =>
          error := Some(failure);
          return;
      }
    }
    EmptyFile(binding, limits, frozen, before, position);
  }

  lemma CountsFile(summary: QuerySummary, next: QuerySummary, heap: MaxHeap<QueryMatch>, considered: nat,
                   binding: QueryBinding, limits: LimitsConfig, frozen: FrozenCandidate, before: PageScan)
    requires !before.limited && Reflects(summary, heap, considered, before, binding.maxResults)
    requires next == summary.(filesScanned := summary.filesScanned + 1)
    ensures Reflects(next, heap, considered, Partly(binding, limits, frozen, before, START), binding.maxResults)
  {
    hide InRangeOf, EligibleOf, CountOf, Earliest;
    PartlyAtStart(binding, limits, frozen, before);
  }

  // ---------- the page ----------

  lemma ValuesAppend(a: seq<Ranked>, x: Ranked)
    ensures ValuesOf(a + [x]) == ValuesOf(a) + [x.value.value]
  {
    assert (a + [x])[..|a|] == a;
  }

  /** Sorts the heap and fills the content budget. */
  method FinishPage(heap: MaxHeap<QueryMatch>, maxResults: nat, maxContentBytes: nat, pageScanLimited: bool,
                    summary: QuerySummary, ghost inRange: seq<Ranked>)
    returns (page: QueryPage)
    requires DistinctKeys(inRange) && multiset(heap.items) == multiset(Earliest(StrippedAll(inRange), maxResults))
    ensures page == Shown(PageOf(inRange, maxResults, maxContentBytes, pageScanLimited, NoneSkipped(summary)))
  {
    hide Sorted, TruncateUtf8, ValuesOf, StrippedAll, Earliest, TakeWithin, Prepended;
    var rest := Sorted(heap.items);
    ghost var chosen := Earliest(inRange, maxResults);
    HeapIsStripped(heap.items, inRange, maxResults);
    ghost var left, taken: seq<Ranked> := chosen, [];
    var resultLimited := summary.eligibleMatches > maxResults;
    var contentLimited := false;
    var returnedContentBytes: nat := 0;
    var results: seq<QueryMatch> := [];
    NoValues();
    NoneTaken(chosen, 0, maxContentBytes);
    while rest != []
      invariant |rest| == |left| && (forall i :: 0 <= i < |rest| ==> rest[i] == Stripped(left[i]))
      invariant results == ValuesOf(taken)
      invariant Prepended(taken, TakeWithin(left, returnedContentBytes, maxContentBytes))
                == TakeWithin(chosen, 0, maxContentBytes)
      invariant !contentLimited
      decreases |rest|
    {
      var result := rest[0].value;
      ghost var original := left[0];
      NextTaken(taken, left, returnedContentBytes, maxContentBytes);
      var remaining := SaturatingSub(maxContentBytes, returnedContentBytes);
      if remaining == 0 {
        contentLimited := true;
        break;
      }
      if |result.content| > remaining {
        var content := TruncateContent(result.content, remaining);
        result := result.(content := content, contentTruncated := true);
        original := Shortened(original, remaining);
        contentLimited := true;
      }
      returnedContentBytes := returnedContentBytes + |result.content|;
      ValuesAppend(taken, original);
      taken := taken + [original];
      results := results + [result];
      if contentLimited {
        break;
      }
      rest, left := rest[1..], left[1..];
    }
    NoneLeft(taken, returnedContentBytes, maxContentBytes);
    var stopReason := StopReason(pageScanLimited, contentLimited, resultLimited);
    ValuesLength(taken);
    return QueryPage(results, stopReason != QueryPageStopReason.Complete, stopReason,
                     summary.(returnedResults := |results|, returnedContentBytes := returnedContentBytes));
  }

  lemma NoValues()
    ensures ValuesOf([]) == []
  {
  }

  lemma ValuesLength(s: seq<Ranked>)
    ensures |ValuesOf(s)| == |s|
  {
  }

  lemma HeapIsStripped(items: seq<Plain>, inRange: seq<Ranked>, maxResults: nat)
    requires DistinctKeys(inRange) && multiset(items) == multiset(Earliest(StrippedAll(inRange), maxResults))
    ensures Sorted(items) == StrippedAll(Earliest(inRange, maxResults))
  {
    hide StrippedAll;
    StrippedDistinct(inRange);
    StrippedEarliest(inRange, maxResults);
    SortedIsSorted(StrippedAll(inRange));
    HeapOrderIrrelevant(items, Earliest(StrippedAll(inRange), maxResults));
  }

  /**
   One stateless query. Its page is the first stateful page for the same request, limits and snapshots: the same
   results in the same order, the same stop reason and the same counters.
   */
  method Execute(binding: QueryBinding, limits: LimitsConfig, frozen: seq<FrozenCandidate>, steady: bool)
    returns (r: Result<QueryPage, StatefulQueryError>)
    requires binding.Askable() && limits.Valid()
    requires forall i :: 0 <= i < |frozen| ==> SaneSnapshot(frozen[i])
    requires PageFacts.DistinctIndexes(frozen)
    ensures r.Ok? ==> r.value == Shown(Page(binding, limits, frozen, None))
    ensures r.Err? ==> PageError(binding, limits, steady, r.error)
  {
    hide SaneSnapshot, Reflects, Tallies, QueryBinding.Askable, LimitsConfig.Valid, PageSpec.ScanCandidate,
         PageFacts.DistinctIndexes, Shown;
    var summary := QuerySummary(|frozen|, 0, 0, 0, 0, 0, 0, 0, 0, 0, 0);
    var earliest := new MaxHeap<QueryMatch>();
    var pageScanLimited := false;
    NothingReflected(binding, limits, frozen, summary, earliest);
    var i := 0;
    while i < |frozen| && !pageScanLimited
      invariant 0 <= i <= |frozen|
      invariant fresh(earliest)
      invariant pageScanLimited == ScanAll(binding, limits, frozen[..i]).limited
      invariant Reflects(summary, earliest, |frozen|, ScanAll(binding, limits, frozen[..i]), binding.maxResults)
      decreases |frozen| - i
    {
      var interrupted := CheckInterrupted(steady);
      if interrupted.Some? {
        return Err(interrupted.value);
      }
      ghost var before := ScanAll(binding, limits, frozen[..i]);
      NextCandidate(binding, limits, frozen, i);
      var error;
      summary, pageScanLimited, error := ScanCandidate(frozen[i], binding, limits, earliest, summary, steady, |frozen|,
                                                       before, frozen[..i]);
      if error.Some? {
        return Err(error.value);
      }
      i := i + 1;
    }
    LimitedStays(binding, limits, frozen, i);
    ReflectedEnd(binding, limits, frozen, summary, earliest);
    var page := FinishPage(earliest, binding.maxResults, limits.maxReturnedContentBytes, pageScanLimited, summary,
                           InRangeOf(ScanAll(binding, limits, frozen).judged));
    return Ok(page);
  }

  lemma NothingReflected(binding: QueryBinding, limits: LimitsConfig, frozen: seq<FrozenCandidate>,
                         summary: QuerySummary, heap: MaxHeap<QueryMatch>)
    requires summary == QuerySummary(|frozen|, 0, 0, 0, 0, 0, 0, 0, 0, 0, 0) && heap.items == []
    ensures !ScanAll(binding, limits, frozen[..0]).limited
    ensures Reflects(summary, heap, |frozen|, ScanAll(binding, limits, frozen[..0]), binding.maxResults)
  {
  }

  lemma ReflectedEnd(binding: QueryBinding, limits: LimitsConfig, frozen: seq<FrozenCandidate>, summary: QuerySummary,
                     heap: MaxHeap<QueryMatch>)
    requires PageFacts.DistinctIndexes(frozen)
    requires Reflects(summary, heap, |frozen|, ScanAll(binding, limits, frozen), binding.maxResults)
    ensures var inRange := InRangeOf(ScanAll(binding, limits, frozen).judged);
            && DistinctKeys(inRange)
            && multiset(heap.items) == multiset(Earliest(StrippedAll(inRange), binding.maxResults))
            && EligibleOf(inRange, None) == inRange
            && NoneSkipped(summary) == SummaryOf(|frozen|, ScanAll(binding, limits, frozen), None)
  {
    hide InRangeOf, EligibleOf, CountOf, Earliest, ScanAll, StrippedAll;
    PageFacts.PageKeysDistinct(binding, limits, frozen);
    PageFacts.InRangeDistinct(ScanAll(binding, limits, frozen).judged);
    PageFacts.EligibleIsShorter(InRangeOf(ScanAll(binding, limits, frozen).judged), None);
  }
}
