/**
 How far a session can get: every page scans all snapshots again, and a cursor chain may scan 64 GiB in all.
 */
module SessionReach {
  import opened Wrappers
  import opened Bytes
  import opened ScanSpec
  import opened Watermark
  import opened QueryState
  import opened PageSpec
  import opened Pagination
  import ChunkedScan
  import Completeness
  import Counters
  import PageFacts
  import Search
  import StatefulQuery

  // ---------- when a chain can go on ----------

  /** The last page of a chain begins behind what the pages before it returned. */
  lemma LastPageBegins(binding: QueryBinding, limits: LimitsConfig, frozen: seq<FrozenCandidate>,
                       pages: seq<ScannedPage>)
    requires binding.maxResults > 0 && limits.maxReturnedContentBytes > 0
    requires PageFacts.DistinctIndexes(frozen) && Pagination.Chain(binding, limits, frozen, pages) && pages != []
    ensures var all, first := AllResults(binding, limits, frozen), |Returned(pages[..|pages| - 1])|;
            && first <= |all| && all == all[..first] + all[first..]
            && pages[|pages| - 1] == Page(binding, limits, frozen, WatermarkBehind(all[..first]))
  {
    hide Page, AllResults, Shows, PageShows, PartsShown, Pagination.Chain, Returned;
    var init, all := pages[..|pages| - 1], AllResults(binding, limits, frozen);
    ChainStep(binding, limits, frozen, pages);
    PaginationExact(binding, limits, frozen, init);
    NoPages(all, limits.maxReturnedContentBytes);
    ShowsKeys(Returned(init), all[..|Returned(init)|]);
  }

  /** Cutting the last result makes a difference. */
  lemma CutDiffers(shown: seq<Ranked>, chosen: seq<Ranked>, budget: nat)
    requires CutAtEnd(shown, chosen, budget)
    ensures shown != chosen
  {
    hide CutTo;
    var last := |chosen| - 1;
    CutIsShown(shown[last], chosen[last], budget - ContentBytes(chosen[..last]));
  }

  /**
   After a chain of pages there is something to continue exactly when the snapshots are within the page's byte
   budget and the last page did not return the rest of the list as it is.
   */
  lemma ContinuableExactly(binding: QueryBinding, limits: LimitsConfig, frozen: seq<FrozenCandidate>,
                           pages: seq<ScannedPage>)
    requires binding.maxResults > 0 && limits.maxReturnedContentBytes > 0
    requires PageFacts.DistinctIndexes(frozen) && Pagination.Chain(binding, limits, frozen, pages) && pages != []
    ensures |Returned(pages[..|pages| - 1])| <= |AllResults(binding, limits, frozen)|
    ensures Continuable(pages[|pages| - 1])
       <==> && TotalSize(frozen) <= limits.maxScanBytesPerPage
            && pages[|pages| - 1].results
               != AllResults(binding, limits, frozen)[|Returned(pages[..|pages| - 1])|..]
  {
    hide Page, AllResults, Pagination.Chain, Returned, TotalSize, CutAtEnd;
    LastPageBegins(binding, limits, frozen, pages);
    var all, first := AllResults(binding, limits, frozen), |Returned(pages[..|pages| - 1])|;
    var last, rest := pages[|pages| - 1], all[first..];
    PageContinues(binding, limits, frozen, all[..first], rest);
    ScanByteLimitExactly(binding, limits, frozen, WatermarkBehind(all[..first]));
    var part := rest[..|last.results|];
    if CutAtEnd(last.results, part, limits.maxReturnedContentBytes) {
      CutDiffers(last.results, part, limits.maxReturnedContentBytes);
      assert |last.results| == |rest| ==> part == rest;
    }
  }

  /**
   How far a session can get: after `n` pages there is another exactly when the snapshots are within the page's
   byte budget, the last page did not return the rest of the list as it is, no more than 100 pages were returned,
   and scanning all snapshots `n` times was not more than 64 GiB.
   */
  lemma SessionExtends(binding: QueryBinding, limits: LimitsConfig, frozen: seq<FrozenCandidate>,
                       candidates: seq<CursorCandidate>, pages: seq<ScannedPage>, states: seq<SearchCursorData>)
    requires binding.Valid() && limits.Valid() && Search.Storable(binding, candidates)
             && Search.Freezes(frozen, candidates) && PageFacts.DistinctIndexes(frozen)
    requires Search.Session(binding, limits, frozen, candidates, pages, states)
    ensures |pages| > 0 && |Returned(pages[..|pages| - 1])| <= |AllResults(binding, limits, frozen)|
    ensures var n, size := |pages|, TotalSize(frozen);
            Counters.Extendable(binding, limits, frozen, candidates, pages, states)
            <==> && size <= limits.maxScanBytesPerPage
                 && pages[n - 1].results != AllResults(binding, limits, frozen)[|Returned(pages[..n - 1])|..]
                 && n <= 100 && n * size <= 64 * 1024 * 1024 * 1024
  {
    hide Page, AllResults, Pagination.Chain, Returned, TotalSize, QueryBinding.Valid, Search.Session, Search.Storable,
         Counters.Extendable, Continuable;
    Counters.ExtendsByLimits(binding, limits, frozen, candidates, pages, states);
    Search.PositiveLimits(binding, limits);
    Search.SessionPagesChain(binding, limits, frozen, candidates, pages, states, |pages|);
    assert pages[..|pages|] == pages;
    ContinuableExactly(binding, limits, frozen, pages);
  }

  // ---------- a session that ends before its list ----------

  const BIG: nat := 40 * 1024 * 1024 * 1024

  /** Three lines with a match, and one long line without. */
  function ThreeLines(): seq<Byte> {
    [97, LF, 97, LF, 97, LF]
  }

  function BigCandidate(): FrozenCandidate {
    FrozenCandidate(CursorCandidate(0, 0, SourceFileSnapshot("s", "f", [[97]], FileIdentity(0, 0), BIG)),
                    ThreeLines() + Completeness.Repeat(120, BIG - 6), None)
  }

  const BIG_BINDING: QueryBinding := QueryBinding(["s"], [97], true, None, None, 1)
  const BIG_LIMITS: LimitsConfig := LimitsConfig(1, MAX_SCAN_BYTES, 1, 8, 8, 1)

  lemma OneLetterLine(query: LineQuery, position: ScanPosition)
    requires query.keyword == [97]
    ensures |Listed(LineMatch(query, [97], position))| == 1
  {
    hide MatchAt, FindFolded;
    var line: seq<Byte> := [97];
    assert line[0..1] == [97];
    assert OccursAt(line, query.keyword, query.caseSensitive, 0);
    FindFoldedIsLeftmost(line, query.keyword, query.caseSensitive);
  }

  /** One line with a match in front of others. */
  lemma OneMoreLine(query: LineQuery, rest: seq<Byte>, position: ScanPosition)
    requires query.keyword == [97]
    ensures |TerminatedMatches(query, [97, LF] + rest, position)|
         == 1 + |TerminatedMatches(query, rest, ScanPosition(position.byteOffset + 2, position.lineNumber + 1))|
  {
    hide LineMatch, TerminatedMatches, AllMatches, NewlineCount, NewlineIndex;
    var s := [97, LF] + rest;
    assert s[0] == 97 && s[1] == LF;
    assert NewlineIndex(s) == 1;
    assert s[..1] == [97] && s[2..] == rest;
    ChunkedScan.FirstLineMatches(query, s, 1, position);
    OneLetterLine(query, position);
  }

  lemma ThreeFound(query: LineQuery)
    requires query.keyword == [97]
    ensures |TerminatedMatches(query, ThreeLines(), START)| == 3
  {
    hide LineMatch, TerminatedMatches;
    var two: seq<Byte>, one: seq<Byte> := [97, LF, 97, LF], [97, LF];
    assert ThreeLines() == [97, LF] + two && two == [97, LF] + one && one == [97, LF] + [];
    OneMoreLine(query, two, START);
    OneMoreLine(query, one, ScanPosition(2, 2));
    OneMoreLine(query, [], ScanPosition(4, 3));
    Completeness.EmptyLine(query, ScanPosition(6, 4));
  }

  lemma NoneInTail(query: LineQuery, tail: seq<Byte>, position: ScanPosition)
    requires query.keyword == [97] && tail != [] && forall i :: 0 <= i < |tail| ==> tail[i] == 120
    ensures AllMatches(query, tail, position) == []
  {
    hide AllMatches, NewlineCount, MatchAt, FindFolded;
    assert NewlineIndex(tail) == |tail| by {
      hide NewlineIndex;
    }
    ChunkedScan.NoLineFeed(query, tail, position);
    FindFoldedIsLeftmost(tail, query.keyword, query.caseSensitive);
    forall j: nat
      ensures !OccursAt(tail, query.keyword, query.caseSensitive, j)
    {
      if j < |tail| {
        OccursByByte(tail, query.keyword, query.caseSensitive, j);
        assert Fold(tail[j + 0], query.caseSensitive) != Fold(query.keyword[0], query.caseSensitive);
      }
    }
  }

  /** A snapshot with three matches in front, the last of them on a line that is not the last. */
  lemma BigFileMatches()
    ensures var query, bytes := LineQueryOf(BIG_BINDING, BIG_LIMITS), BigCandidate().bytes;
            |bytes| == BIG && |AllMatches(query, bytes, START)| == 3 && BigCandidate().parser.None?
  {
    hide AllMatches, TerminatedMatches, NewlineCount, Completeness.Repeat;
    var query, tail := LineQueryOf(BIG_BINDING, BIG_LIMITS), Completeness.Repeat(120, BIG - 6);
    ChunkedScan.MatchesSplit(query, ThreeLines(), tail, START);
    ThreeFound(query);
    NoneInTail(query, tail, ChunkedScan.Behind(START, ThreeLines()));
  }

  /** A candidate that is scanned whole, without a timestamp rule, lists all its matches. */
  lemma OneCandidateList(frozen: FrozenCandidate, query: LineQuery)
    requires frozen.parser.None? && |frozen.bytes| < BIG_LIMITS.maxScanBytesPerPage
    requires query == LineQueryOf(BIG_BINDING, BIG_LIMITS)
    ensures |AllResults(BIG_BINDING, BIG_LIMITS, [frozen])| == |AllMatches(query, frozen.bytes, START)|
    ensures TotalSize([frozen]) == |frozen.bytes|
  {
    hide AllMatches, TerminatedMatches, JudgeAll, NewlineCount, LineCount, Sorted, InRangeOf, CountOf;
    var found := AllMatches(query, frozen.bytes, START);
    OneScanned(frozen, query);
    PageFacts.JudgedLength(BIG_BINDING, frozen, found);
    var judged := JudgeAll(BIG_BINDING, frozen.candidate, frozen.parser, frozen.bytes, found);
    forall i | 0 <= i < |judged|
      ensures judged[i].decision != OutOfRange
    {
      PageFacts.JudgeAllAt(BIG_BINDING, frozen, found, i);
    }
    NoneOutOfRange(judged);
    PageFacts.InRangeAccounts(judged);
    SortedKeepsElements(InRangeOf(judged));
  }

  lemma OneScanned(frozen: FrozenCandidate, query: LineQuery)
    requires |frozen.bytes| < BIG_LIMITS.maxScanBytesPerPage && query == LineQueryOf(BIG_BINDING, BIG_LIMITS)
    ensures ScanAll(BIG_BINDING, BIG_LIMITS, [frozen]).judged
         == JudgeAll(BIG_BINDING, frozen.candidate, frozen.parser, frozen.bytes, AllMatches(query, frozen.bytes, START))
    ensures TotalSize([frozen]) == |frozen.bytes|
  {
    hide AllMatches, TerminatedMatches, JudgeAll, NewlineCount, LineCount;
    assert [frozen][..0] == [];
    assert ScanAll(BIG_BINDING, BIG_LIMITS, []) == PageScan([], 0, 0, 0, false);
  }

  lemma {:induction false} NoneOutOfRange(judged: seq<Judged>)
    requires forall i :: 0 <= i < |judged| ==> judged[i].decision != OutOfRange
    ensures CountOf(judged, OutOfRange) == 0
  {
    if judged == [] {
    } else {
      NoneOutOfRange(judged[..|judged| - 1]);
    }
  }

  /** What the service has established of a query before its first page. */
  ghost predicate Asked(binding: QueryBinding, limits: LimitsConfig, frozen: seq<FrozenCandidate>,
                        candidates: seq<CursorCandidate>)
  {
    && binding.Valid() && limits.Valid() && Search.Storable(binding, candidates)
    && Search.Freezes(frozen, candidates) && PageFacts.DistinctIndexes(frozen)
    && forall i :: 0 <= i < |frozen| ==> StatefulQuery.SaneSnapshot(frozen[i])
  }

  lemma BigIsAsked()
    ensures Asked(BIG_BINDING, BIG_LIMITS, [BigCandidate()], [BigCandidate().candidate])
  {
    hide Completeness.Repeat;
    assert ScanSpec.CharCount([97]) == 1 by {
      assert [97 as Byte][1..] == [];
    }
  }

  /** No page returns more than one result. */
  lemma PagesOfOne(frozen: seq<FrozenCandidate>, after: Option<ResultWatermark>)
    ensures |Page(BIG_BINDING, BIG_LIMITS, frozen, after).results| <= 1
  {
    hide Page;
    BigIsAsked();
    Counters.Bounded(BIG_BINDING, BIG_LIMITS, frozen, after);
    Search.ReturnedCount(BIG_BINDING, BIG_LIMITS, frozen, after);
  }

  lemma {:induction false} OneEach(pages: seq<ScannedPage>)
    requires forall i :: 0 <= i < |pages| ==> |pages[i].results| <= 1
    ensures |Returned(pages)| <= |pages|
  {
    if pages == [] {
    } else {
      OneEach(pages[..|pages| - 1]);
    }
  }

  /** The first page of this query can be followed by another, the second cannot, though matches are left. */
  lemma BigSession(frozen: seq<FrozenCandidate>, candidates: seq<CursorCandidate>, pages: seq<ScannedPage>,
                   states: seq<SearchCursorData>)
    requires Asked(BIG_BINDING, BIG_LIMITS, frozen, candidates) && TotalSize(frozen) == BIG
    requires |AllResults(BIG_BINDING, BIG_LIMITS, frozen)| == 3
    requires Search.Session(BIG_BINDING, BIG_LIMITS, frozen, candidates, pages, states) && |pages| <= 2
    ensures |Returned(pages)| <= |pages| && pages != [] && Continuable(pages[|pages| - 1])
    ensures Counters.Extendable(BIG_BINDING, BIG_LIMITS, frozen, candidates, pages, states) <==> |pages| == 1
  {
    hide Page, AllResults, Continuable, Search.Session, Counters.Extendable, TotalSize, Search.Storable, Search.Freezes,
         StatefulQuery.SaneSnapshot, QueryBinding.Valid, Returned, Pagination.Chain;
    Search.SessionBounds(BIG_BINDING, BIG_LIMITS, frozen, candidates, pages, states);
    forall i | 0 <= i < |pages|
      ensures |pages[i].results| <= 1
    {
      if i == 0 {
        PagesOfOne(frozen, None);
      } else {
        Search.SessionNext(BIG_BINDING, BIG_LIMITS, frozen, candidates, pages, states, i - 1);
        PagesOfOne(frozen, Some(states[i - 1].after));
      }
    }
    OneEach(pages);
    OneEach(pages[..|pages| - 1]);
    SessionExtends(BIG_BINDING, BIG_LIMITS, frozen, candidates, pages, states);
    Search.SessionPagesChain(BIG_BINDING, BIG_LIMITS, frozen, candidates, pages, states, |pages|);
    assert pages[..|pages|] == pages;
    ContinuableExactly(BIG_BINDING, BIG_LIMITS, frozen, pages);
  }

  lemma OneMorePage(frozen: seq<FrozenCandidate>, candidates: seq<CursorCandidate>, pages: seq<ScannedPage>,
                    states: seq<SearchCursorData>) returns (page: ScannedPage, state: SearchCursorData)
    requires Counters.Extendable(BIG_BINDING, BIG_LIMITS, frozen, candidates, pages, states)
    ensures Search.Session(BIG_BINDING, BIG_LIMITS, frozen, candidates, pages + [page], states + [state])
  {
    hide Search.Session;
    page, state :|
      Search.Session(BIG_BINDING, BIG_LIMITS, frozen, candidates, pages + [page], states + [state]);
  }

  lemma TwoPages(frozen: seq<FrozenCandidate>, candidates: seq<CursorCandidate>)
    returns (pages: seq<ScannedPage>, states: seq<SearchCursorData>)
    requires Asked(BIG_BINDING, BIG_LIMITS, frozen, candidates) && TotalSize(frozen) == BIG
    requires |AllResults(BIG_BINDING, BIG_LIMITS, frozen)| == 3
    ensures Search.Session(BIG_BINDING, BIG_LIMITS, frozen, candidates, pages, states)
    ensures |pages| == 2 && Continuable(pages[1]) && |Returned(pages)| <= 2
    ensures !Counters.Extendable(BIG_BINDING, BIG_LIMITS, frozen, candidates, pages, states)
  {
    hide Page, AllResults, Asked, Search.Session, Counters.Extendable, TotalSize, Continuable, Returned;
    var first := [Page(BIG_BINDING, BIG_LIMITS, frozen, None)];
    FirstPage(frozen, candidates);
    BigSession(frozen, candidates, first, []);
    var page, state := OneMorePage(frozen, candidates, first, []);
    pages, states := first + [page], [] + [state];
    BigSession(frozen, candidates, pages, states);
  }

  lemma FirstPage(frozen: seq<FrozenCandidate>, candidates: seq<CursorCandidate>)
    ensures Search.Session(BIG_BINDING, BIG_LIMITS, frozen, candidates, [Page(BIG_BINDING, BIG_LIMITS, frozen, None)],
                           [])
  {
    hide Page;
  }

  /**
   A session that cannot reach the end of its list: one snapshot of 40 GiB with three matches, one result a page.
   It has two pages and no third, and a match is left.
   */
  lemma SessionCutShort() returns (pages: seq<ScannedPage>, states: seq<SearchCursorData>)
    ensures Asked(BIG_BINDING, BIG_LIMITS, [BigCandidate()], [BigCandidate().candidate])
    ensures Search.Session(BIG_BINDING, BIG_LIMITS, [BigCandidate()], [BigCandidate().candidate], pages, states)
    ensures |pages| == 2 && Continuable(pages[1])
    ensures !Counters.Extendable(BIG_BINDING, BIG_LIMITS, [BigCandidate()], [BigCandidate().candidate], pages, states)
    ensures |Returned(pages)| < |AllResults(BIG_BINDING, BIG_LIMITS, [BigCandidate()])|
  {
    hide BigCandidate, AllResults, Asked, Search.Session, Counters.Extendable, TotalSize, Continuable, AllMatches,
         LineQueryOf, Page, Returned;
    BigIsAsked();
    BigFileMatches();
    OneCandidateList(BigCandidate(), LineQueryOf(BIG_BINDING, BIG_LIMITS));
    pages, states := TwoPages([BigCandidate()], [BigCandidate().candidate]);
  }
}
