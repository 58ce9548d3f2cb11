/**
 No counter of a page or of a whole session can leave its range: the overflow branches are never taken.
 */
module Counters {
  import opened Wrappers
  import opened Bytes
  import opened ScanSpec
  import opened QueryState
  import opened PageSpec
  import opened Watermark
  import ChunkLoop
  import FileChunks
  import PageFacts
  import Pagination
  import Search

  // ---------- one page ----------

  /** Lines and matches are never more than the bytes they were found in. */
  ghost predicate Modest(scan: PageScan, files: nat) {
    && scan.linesScanned <= scan.bytesScanned && |scan.judged| <= scan.bytesScanned && scan.filesScanned <= files
  }

  lemma FileIsModest(query: LineQuery, snapshot: seq<Byte>, remaining: nat)
    requires query.keyword != []
    ensures var scan := ScanFile(query, snapshot, remaining);
            scan.linesScanned <= scan.bytesScanned && |scan.matches| <= scan.bytesScanned
  {
    hide AllMatches, TerminatedMatches, NewlineCount, LineCount, EndUnseen;
    ChunkLoop.FewerMatchesThanBytes(query, snapshot, START);
    FileChunks.NewlineCountBound(snapshot);
    if |snapshot| > remaining {
      ChunkLoop.FewerMatchesThanBytes(query, snapshot[..remaining], START);
      FileChunks.NewlineCountBound(snapshot[..remaining]);
    }
  }

  lemma {:induction false} ScanIsModest(binding: QueryBinding, limits: LimitsConfig, frozen: seq<FrozenCandidate>)
    requires binding.keyword != []
    ensures Modest(ScanAll(binding, limits, frozen), |frozen|)
  {
    hide ScanFile, JudgeAll;
    if frozen == [] {
    } else {
      var init, last := frozen[..|frozen| - 1], frozen[|frozen| - 1];
      ScanIsModest(binding, limits, init);
      var before := ScanAll(binding, limits, init);
      if !before.limited {
        var query, remaining := LineQueryOf(binding, limits), limits.maxScanBytesPerPage - before.bytesScanned;
        FileIsModest(query, last.bytes, remaining);
        PageFacts.JudgedLength(binding, last, ScanFile(query, last.bytes, remaining).matches);
      }
    }
  }

  /** The bounds of a page's counters. */
  ghost predicate PageBounds(page: QuerySummary, limits: LimitsConfig, maxResults: nat, files: nat) {
    && page.filesScanned <= files
    && page.bytesScanned <= limits.maxScanBytesPerPage
    && page.linesScanned <= page.bytesScanned && page.rawMatches <= page.bytesScanned
    && page.filteredOutMatches <= page.rawMatches && page.eligibleMatches <= page.rawMatches
    && page.unknownTimestampMatches <= page.rawMatches && page.malformedTimestampMatches <= page.rawMatches
    && page.returnedResults <= maxResults && page.returnedContentBytes <= limits.maxReturnedContentBytes
  }

  lemma CountersOfPage(binding: QueryBinding, limits: LimitsConfig, frozen: seq<FrozenCandidate>,
                       after: Option<ResultWatermark>)
    requires binding.keyword != []
    ensures PageBounds(Page(binding, limits, frozen, after).summary.page, limits, binding.maxResults, |frozen|)
    ensures var summary := Page(binding, limits, frozen, after).summary;
            summary.skippedBeforeWatermark <= summary.page.rawMatches
  {
    hide ScanAll, EligibleOf, InRangeOf, Sorted, TakeWithin, CountOf;
    ScanIsModest(binding, limits, frozen);
    var scan := ScanAll(binding, limits, frozen);
    PageFacts.InRangeAccounts(scan.judged);
    PageFacts.EligibleIsShorter(InRangeOf(scan.judged), after);
    Pagination.TakesPrefix(Earliest(EligibleOf(InRangeOf(scan.judged), after), binding.maxResults), 0,
                           limits.maxReturnedContentBytes);
  }

  // ---------- a session ----------

  /** The usage of a chain: as modest as its pages. */
  ghost predicate ModestUsage(usage: CumulativeQueryUsage) {
    && usage.linesScanned <= usage.bytesScanned && usage.rawMatches <= usage.bytesScanned
       && usage.eligibleMatches <= usage.rawMatches
    && usage.filesScanned <= usage.pagesReturned * MAX_CURSOR_CANDIDATES
  }

  /** Adding a page to an acceptable usage cannot overflow, and keeps it modest. */
  lemma UsageFits(usage: CumulativeQueryUsage, page: QuerySummary, limits: LimitsConfig, maxResults: nat, files: nat)
    requires usage.Valid() && ModestUsage(usage) && limits.Valid()
    requires PageBounds(page, limits, maxResults, files) && files <= MAX_CURSOR_CANDIDATES
             && maxResults <= MAX_SCAN_RESULTS
    ensures usage.Plus(page).FitsU64() && ModestUsage(usage.Plus(page))
  {
  }

  /** Every usage along a session is modest. */
  lemma {:induction false} SessionUsage(binding: QueryBinding, limits: LimitsConfig, frozen: seq<FrozenCandidate>,
                                        candidates: seq<CursorCandidate>, pages: seq<ScannedPage>,
                                        states: seq<SearchCursorData>, i: nat)
    requires binding.Valid() && limits.Valid() && Search.Storable(binding, candidates)
             && Search.Freezes(frozen, candidates)
    requires Search.Session(binding, limits, frozen, candidates, pages, states) && i <= |states|
    ensures Search.UsageBefore(states, i).Valid() && ModestUsage(Search.UsageBefore(states, i))
  {
    hide Page, QueryBinding.Valid, LimitsConfig.Valid, Search.Session, ModestUsage, PageBounds;
    if i == 0 {
      NoUsage();
    } else {
      SessionUsage(binding, limits, frozen, candidates, pages, states, i - 1);
      Search.SessionPage(binding, limits, frozen, candidates, pages, states, i - 1);
      var after := if i == 1 then None else Some(states[i - 2].after);
      Bounded(binding, limits, frozen, after);
      UsageFits(Search.UsageBefore(states, i - 1), pages[i - 1].summary.page, limits, binding.maxResults, |frozen|);
      Search.SessionStatesChain(binding, limits, frozen, candidates, pages, states, i - 1);
      StoredUsage(binding, candidates, Search.UsageBefore(states, i - 1), pages[i - 1], states[i - 1]);
    }
  }

  lemma NoUsage()
    ensures NO_USAGE.Valid() && ModestUsage(NO_USAGE)
  {
  }

  lemma Bounded(binding: QueryBinding, limits: LimitsConfig, frozen: seq<FrozenCandidate>,
                after: Option<ResultWatermark>)
    requires binding.Valid()
    ensures PageBounds(Page(binding, limits, frozen, after).summary.page, limits, binding.maxResults, |frozen|)
    ensures binding.maxResults <= MAX_SCAN_RESULTS
  {
    hide Page, PageBounds;
    CountersOfPage(binding, limits, frozen, after);
  }

  lemma StoredUsage(binding: QueryBinding, candidates: seq<CursorCandidate>, before: CumulativeQueryUsage,
                    page: ScannedPage, state: SearchCursorData)
    requires Search.StoredAfter(binding, candidates, before, page, state)
    ensures state.usage == before.Plus(page.summary.page) && state.usage.Valid()
  {
  }

  /** No page of a session fails for its counters: the cumulative usage never overflows. */
  lemma SessionNeverOverflows(binding: QueryBinding, limits: LimitsConfig, frozen: seq<FrozenCandidate>,
                              candidates: seq<CursorCandidate>, pages: seq<ScannedPage>, states: seq<SearchCursorData>)
    requires binding.Valid() && limits.Valid() && Search.Storable(binding, candidates)
             && Search.Freezes(frozen, candidates)
    requires Search.Session(binding, limits, frozen, candidates, pages, states)
    ensures Search.Continuation(binding, candidates, Search.UsageBefore(states, |states|), pages[|states|]).Ok?
  {
    hide Page, QueryBinding.Valid, LimitsConfig.Valid, ModestUsage, PageBounds;
    SessionUsage(binding, limits, frozen, candidates, pages, states, |states|);
    var n := |states|;
    var after := if n == 0 then None else Some(states[n - 1].after);
    assert n > 0 ==> pages[n - 1 + 1] == Page(binding, limits, frozen, Some(states[n - 1].after));
    Bounded(binding, limits, frozen, after);
    UsageFits(Search.UsageBefore(states, n), pages[n].summary.page, limits, binding.maxResults, |frozen|);
  }

  /** What the pages of a session have used up: each has scanned every snapshot again. */
  lemma {:induction false} SessionTotals(binding: QueryBinding, limits: LimitsConfig, frozen: seq<FrozenCandidate>,
                                         candidates: seq<CursorCandidate>, pages: seq<ScannedPage>,
                                         states: seq<SearchCursorData>, i: nat)
    requires binding.Valid() && Search.Session(binding, limits, frozen, candidates, pages, states) && i <= |states|
    ensures var usage := Search.UsageBefore(states, i);
            && usage.pagesReturned == i && usage.bytesScanned == i * Pagination.TotalSize(frozen)
            && usage.resultsReturned <= i * MAX_SCAN_RESULTS
               && usage.returnedContentBytes <= i * limits.maxReturnedContentBytes
  {
    hide Page, QueryBinding.Valid, Search.Session, Pagination.TotalSize;
    if i == 0 {
    } else {
      SessionTotals(binding, limits, frozen, candidates, pages, states, i - 1);
      Search.SessionPage(binding, limits, frozen, candidates, pages, states, i - 1);
      var after := if i == 1 then None else Some(states[i - 2].after);
      PageUses(binding, limits, frozen, after);
      StoredUsage(binding, candidates, Search.UsageBefore(states, i - 1), pages[i - 1], states[i - 1]);
    }
  }

  /** One counter of all pages together. */
  function Sum(pages: seq<ScannedPage>, counter: QuerySummary -> nat): nat {
    if pages == [] then 0 else Sum(pages[..|pages| - 1], counter) + counter(pages[|pages| - 1].summary.page)
  }

  /** All counters of these pages together. */
  function UsageOf(pages: seq<ScannedPage>): CumulativeQueryUsage {
    CumulativeQueryUsage(
      pagesReturned := |pages|,
      filesScanned := Sum(pages, (page: QuerySummary) => page.filesScanned),
      bytesScanned := Sum(pages, (page: QuerySummary) => page.bytesScanned),
      linesScanned := Sum(pages, (page: QuerySummary) => page.linesScanned),
      rawMatches := Sum(pages, (page: QuerySummary) => page.rawMatches),
      eligibleMatches := Sum(pages, (page: QuerySummary) => page.eligibleMatches),
      resultsReturned := Sum(pages, (page: QuerySummary) => page.returnedResults),
      returnedContentBytes := Sum(pages, (page: QuerySummary) => page.returnedContentBytes))
  }

  lemma OnePageMore(pages: seq<ScannedPage>)
    requires pages != []
    ensures UsageOf(pages) == UsageOf(pages[..|pages| - 1]).Plus(pages[|pages| - 1].summary.page)
  {
  }

  /** The usage that the cursor behind `i` pages of a session carries is the sum of their counters. */
  lemma {:induction false} UsageIsSum(binding: QueryBinding, limits: LimitsConfig, frozen: seq<FrozenCandidate>,
                                      candidates: seq<CursorCandidate>, pages: seq<ScannedPage>,
                                      states: seq<SearchCursorData>, i: nat)
    requires Search.Session(binding, limits, frozen, candidates, pages, states) && i <= |states|
    ensures i <= |pages| && Search.UsageBefore(states, i) == UsageOf(pages[..i])
  {
    hide Page, Search.Session, UsageOf;
    Search.SessionBounds(binding, limits, frozen, candidates, pages, states);
    if i == 0 {
      NothingUsed();
    } else {
      UsageIsSum(binding, limits, frozen, candidates, pages, states, i - 1);
      assert pages[..i][..i - 1] == pages[..i - 1] && pages[..i][i - 1] == pages[i - 1];
      OnePageMore(pages[..i]);
      Search.SessionPage(binding, limits, frozen, candidates, pages, states, i - 1);
      StoredUsage(binding, candidates, Search.UsageBefore(states, i - 1), pages[i - 1], states[i - 1]);
    }
  }

  lemma NothingUsed()
    ensures UsageOf([]) == NO_USAGE
  {
  }

  /** A page that can be continued has scanned every snapshot to its end. */
  lemma PageUses(binding: QueryBinding, limits: LimitsConfig, frozen: seq<FrozenCandidate>,
                 after: Option<ResultWatermark>)
    requires binding.Valid()
    ensures var page := Page(binding, limits, frozen, after);
            && page.summary.page.returnedResults <= MAX_SCAN_RESULTS
            && page.summary.page.returnedContentBytes <= limits.maxReturnedContentBytes
            && (Pagination.Continuable(page) ==> page.summary.page.bytesScanned == Pagination.TotalSize(frozen))
  {
    hide Page, QueryBinding.Valid, Pagination.TotalSize;
    Bounded(binding, limits, frozen, after);
    Pagination.ScanByteLimitExactly(binding, limits, frozen, after);
  }

  /**
   The cumulative limits allow a page more: only the page count and the bytes scanned again and again can refuse
   it.
   */
  lemma AllowedBy(usage: CumulativeQueryUsage, n: nat, limits: LimitsConfig)
    requires limits.Valid() && usage.pagesReturned == n
    requires usage.resultsReturned <= n * MAX_SCAN_RESULTS
             && usage.returnedContentBytes <= n * limits.maxReturnedContentBytes
    ensures usage.Valid() <==> n <= MAX_CURSOR_PAGES && usage.bytesScanned <= MAX_SCAN_BYTES
  {
    if n <= MAX_CURSOR_PAGES {
      ProductsGrow(n, limits.maxReturnedContentBytes, MAX_CURSOR_PAGES, MAX_RETURNED_CONTENT_BYTES);
    }
  }

  lemma ProductsGrow(a: nat, b: nat, c: nat, d: nat)
    requires a <= c && b <= d
    ensures a * b <= c * d
  {
    assert c * d == a * b + a * (d - b) + (c - a) * d;
  }

  /** There is a next page. */
  ghost predicate Extendable(binding: QueryBinding, limits: LimitsConfig, frozen: seq<FrozenCandidate>,
                             candidates: seq<CursorCandidate>, pages: seq<ScannedPage>, states: seq<SearchCursorData>)
  {
    exists page: ScannedPage, state: SearchCursorData ::
      Search.Session(binding, limits, frozen, candidates, pages + [page], states + [state])
  }

  /** A session goes on exactly when its last page can be followed by storing a state. */
  lemma ExtendedByState(binding: QueryBinding, limits: LimitsConfig, frozen: seq<FrozenCandidate>,
                        candidates: seq<CursorCandidate>, pages: seq<ScannedPage>, states: seq<SearchCursorData>)
    requires Search.Session(binding, limits, frozen, candidates, pages, states)
    requires Search.Continuation(binding, candidates, Search.UsageBefore(states, |states|), pages[|states|]).Ok?
    ensures Extendable(binding, limits, frozen, candidates, pages, states)
       <==> Search.Continuation(binding, candidates, Search.UsageBefore(states, |states|),
                                pages[|states|]).value.1.Some?
  {
    hide Page, Search.Continuation, Search.Session;
    Search.SessionBounds(binding, limits, frozen, candidates, pages, states);
    var n, r := |states|, Search.Continuation(binding, candidates, Search.UsageBefore(states, |states|),
                                              pages[|states|]);
    if r.value.1.Some? {
      var state := r.value.1.value;
      SessionGrows(binding, limits, frozen, candidates, pages, states, state);
      assert Search.Session(binding, limits, frozen, candidates,
                            pages + [Page(binding, limits, frozen, Some(state.after))], states + [state]);
    }
    forall page: ScannedPage, state: SearchCursorData |
      Search.Session(binding, limits, frozen, candidates, pages + [page], states + [state])
      ensures r.value.1.Some?
    {
      Search.SessionPage(binding, limits, frozen, candidates, pages + [page], states + [state], n);
      SameUsage(states, state, n);
    }
  }

  lemma SameUsage(states: seq<SearchCursorData>, state: SearchCursorData, i: nat)
    requires i <= |states|
    ensures Search.UsageBefore(states + [state], i) == Search.UsageBefore(states, i)
  {
  }

  lemma SessionGrows(binding: QueryBinding, limits: LimitsConfig, frozen: seq<FrozenCandidate>,
                     candidates: seq<CursorCandidate>, pages: seq<ScannedPage>, states: seq<SearchCursorData>,
                     state: SearchCursorData)
    requires Search.Session(binding, limits, frozen, candidates, pages, states)
    requires Search.StoredAfter(binding, candidates, Search.UsageBefore(states, |states|), pages[|states|], state)
    ensures Search.Session(binding, limits, frozen, candidates,
                           pages + [Page(binding, limits, frozen, Some(state.after))], states + [state])
  {
    hide Page, Search.StoredAfter;
    var morePages, moreStates := pages + [Page(binding, limits, frozen, Some(state.after))], states + [state];
    forall i | 0 <= i < |moreStates|
      ensures Search.StoredAfter(binding, candidates, Search.UsageBefore(moreStates, i), morePages[i], moreStates[i])
      ensures morePages[i + 1] == Page(binding, limits, frozen, Some(moreStates[i].after))
    {
      SameUsage(states, state, i);
      if i < |states| {
        assert pages[i + 1] == Page(binding, limits, frozen, Some(states[i].after));
      }
    }
  }

  /**
   What the limits allow: after `n` pages there is another exactly when the last page can be continued, no
   more than 100 pages were returned, and scanning all snapshots `n` times was not more than 64 GiB.
   */
  lemma ExtendsByLimits(binding: QueryBinding, limits: LimitsConfig, frozen: seq<FrozenCandidate>,
                       candidates: seq<CursorCandidate>, pages: seq<ScannedPage>, states: seq<SearchCursorData>)
    requires binding.Valid() && limits.Valid() && Search.Storable(binding, candidates)
             && Search.Freezes(frozen, candidates)
    requires Search.Session(binding, limits, frozen, candidates, pages, states)
    ensures var n := |pages|;
            && n > 0
            && (Extendable(binding, limits, frozen, candidates, pages, states)
                <==> && Pagination.Continuable(pages[n - 1]) && n <= MAX_CURSOR_PAGES
                     && n * Pagination.TotalSize(frozen) <= MAX_SCAN_BYTES)
  {
    hide Page, QueryBinding.Valid, LimitsConfig.Valid, Search.Session, Search.Continuation, Search.Storable, Extendable,
         Pagination.TotalSize, CumulativeQueryUsage.Valid;
    var n := |states|;
    Search.SessionBounds(binding, limits, frozen, candidates, pages, states);
    SessionNeverOverflows(binding, limits, frozen, candidates, pages, states);
    ExtendedByState(binding, limits, frozen, candidates, pages, states);
    SessionTotals(binding, limits, frozen, candidates, pages, states, n);
    var after := if n == 0 then None else Some(states[n - 1].after);
    if n > 0 {
      Search.SessionNext(binding, limits, frozen, candidates, pages, states, n - 1);
    }
    PageUses(binding, limits, frozen, after);
    var usage := Search.UsageBefore(states, n);
    Search.ContinuationIsValid(binding, limits, frozen, candidates, after, usage);
    AllowedBy(usage.Plus(pages[n].summary.page), n + 1, limits);
  }
}
