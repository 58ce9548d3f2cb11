/**
 One search request around its page: how candidates are numbered, when a page can be continued, and that every
 continuation the search builds is accepted by the cursor store, along whole chains and under interleaving.
 */
module Search {
  import opened Wrappers
  import opened Watermark
  import opened QueryState
  import opened PageSpec
  import CursorStore
  import P = CursorProtocol
  import MatchFacts
  import PageFacts
  import PageOrigin
  import Pagination
  import ScanSpec

  // ---------- numbering the candidates ----------

  datatype SearchError = FileLimitExceeded | TooManyFiles | ListingFailed

  /** What listing a source without a limit comes to: its files, or a failure of any kind. */
  type Listing = Option<seq<SourceFileSnapshot>>

  /** The candidates of one source, numbered in listing order. */
  function Numbered(sourceIndex: nat, files: seq<SourceFileSnapshot>): (candidates: seq<CursorCandidate>)
    ensures |candidates| == |files|
    ensures forall i :: 0 <= i < |files| ==> candidates[i] == CursorCandidate(sourceIndex, i, files[i])
  {
    if files == [] then []
    else
      var last := |files| - 1;
      Numbered(sourceIndex, files[..last]) + [CursorCandidate(sourceIndex, last, files[last])]
  }

  /** The candidates of all sources, source by source. */
  function CandidatesOf(listings: seq<seq<SourceFileSnapshot>>): seq<CursorCandidate> {
    if listings == [] then []
    else
      var last := |listings| - 1;
      CandidatesOf(listings[..last]) + Numbered(last, listings[last])
  }

  function FileCount(listings: seq<seq<SourceFileSnapshot>>): nat {
    |CandidatesOf(listings)|
  }

  /** A limit that is used up before the last source refuses the query, even when that source is empty. */
  predicate WithinFileLimit(listings: seq<seq<SourceFileSnapshot>>, maxFiles: nat) {
    listings != [] ==> FileCount(listings[..|listings| - 1]) < maxFiles && FileCount(listings) <= maxFiles
  }

  /** `snapshot_files` with a limit: the listing, or an error when it fails or is too long. */
  function ListedWithin(listing: Listing, limit: nat): Result<seq<SourceFileSnapshot>, SearchError> {
    if listing.None? then Err(ListingFailed)
    else if limit == 0 || |listing.value| > limit then Err(TooManyFiles)
    else Ok(listing.value)
  }

  function Found(listing: Listing): seq<SourceFileSnapshot> {
    if listing.None? then [] else listing.value
  }

  /** The files of the sources that can be listed. */
  function FilesOf(listings: seq<Listing>): (files: seq<seq<SourceFileSnapshot>>)
    ensures |files| == |listings|
    ensures forall i :: 0 <= i < |listings| ==> files[i] == Found(listings[i])
  {
    if listings == [] then []
    else FilesOf(listings[..|listings| - 1]) + [Found(listings[|listings| - 1])]
  }

  /** What goes wrong at source `i`, when all sources before it were listed. */
  function FailureAt(listings: seq<Listing>, maxFiles: nat, i: nat): Option<SearchError>
    requires i < |listings|
  {
    var before := FileCount(FilesOf(listings)[..i]);
    if before >= maxFiles then Some(FileLimitExceeded)
    else if listings[i].None? then Some(ListingFailed)
    else if before + |listings[i].value| > maxFiles then Some(TooManyFiles)
    else None
  }

  /** The first source at which something goes wrong decides. */
  ghost predicate FirstFailure(listings: seq<Listing>, maxFiles: nat, error: SearchError) {
    exists i :: 0 <= i < |listings| && FailureAt(listings, maxFiles, i) == Some(error)
      && forall j :: 0 <= j < i ==> FailureAt(listings, maxFiles, j).None?
  }

  lemma MoreSources(listings: seq<seq<SourceFileSnapshot>>, i: nat)
    requires i < |listings|
    ensures CandidatesOf(listings[..i + 1]) == CandidatesOf(listings[..i]) + Numbered(i, listings[i])
  {
    assert listings[..i + 1][..i] == listings[..i];
  }

  lemma {:induction false} CountsGrow(listings: seq<seq<SourceFileSnapshot>>, i: nat, j: nat)
    requires i <= j <= |listings|
    ensures FileCount(listings[..i]) <= FileCount(listings[..j])
  {
    if i == j {
    } else {
      CountsGrow(listings, i, j - 1);
      MoreSources(listings, j - 1);
    }
  }

  lemma LimitOfPrefix(listings: seq<seq<SourceFileSnapshot>>, maxFiles: nat, i: nat)
    requires i < |listings| && WithinFileLimit(listings, maxFiles)
    ensures FileCount(listings[..i]) < maxFiles && FileCount(listings[..i + 1]) <= maxFiles
  {
    hide CandidatesOf;
    CountsGrow(listings, i, |listings| - 1);
    CountsGrow(listings, i + 1, |listings|);
    assert listings[..|listings|] == listings;
  }

  /** The candidates are all files of all sources, or the error of the first source that fails. */
  method BuildCandidates(listings: seq<Listing>, maxFiles: nat) returns (r: Result<seq<CursorCandidate>, SearchError>)
    ensures r.Ok? <==>
              (forall i :: 0 <= i < |listings| ==> listings[i].Some?) && WithinFileLimit(FilesOf(listings), maxFiles)
    ensures r.Ok? ==> r.value == CandidatesOf(FilesOf(listings)) && (listings != [] ==> |r.value| <= maxFiles)
    ensures r.Err? ==> FirstFailure(listings, maxFiles, r.error)
  {
    hide CandidatesOf, WithinFileLimit, FilesOf;
    ghost var sources := FilesOf(listings);
    var candidates, remaining: nat := [], maxFiles;
    NoSources(sources, maxFiles);
    for i := 0 to |listings|
      invariant candidates == CandidatesOf(sources[..i]) && |candidates| + remaining == maxFiles
      invariant forall j :: 0 <= j < i ==> listings[j].Some? && FailureAt(listings, maxFiles, j).None?
      invariant i == |listings| ==> WithinFileLimit(sources, maxFiles)
    {
      if WithinFileLimit(sources, maxFiles) {
        LimitOfPrefix(sources, maxFiles, i);
      }
      MoreSources(sources, i);
      if remaining == 0 {
        assert FailureAt(listings, maxFiles, i) == Some(FileLimitExceeded);
        return Err(FileLimitExceeded);
      }
      var files := ListedWithin(listings[i], remaining);
      if files.Err? {
        assert FailureAt(listings, maxFiles, i) == Some(files.error);
        return Err(files.error);
      }
      remaining := remaining - |files.value|;
      candidates := candidates + Numbered(i, files.value);
      if i == |listings| - 1 {
        AllWithin(sources, maxFiles);
      }
    }
    assert sources[..|listings|] == sources;
    return Ok(candidates);
  }

  /** A query for one file of two sources, the second empty, is refused at a limit of one file. */
  lemma EmptySourceRefused(file: SourceFileSnapshot)
    ensures var listings := [[file], []];
            |CandidatesOf(listings)| == 1 && !WithinFileLimit(listings, 1)
  {
    var listings: seq<seq<SourceFileSnapshot>> := [[file], []];
    assert Numbered(0, [file])[0] == CursorCandidate(0, 0, file);
    assert CandidatesOf(listings[..0]) == [];
    MoreSources(listings, 0);
    MoreSources(listings, 1);
    assert listings[..2] == listings;
  }

  lemma NoSources(listings: seq<seq<SourceFileSnapshot>>, maxFiles: nat)
    ensures CandidatesOf(listings[..0]) == []
    ensures listings == [] ==> WithinFileLimit(listings, maxFiles)
  {
  }

  lemma AllWithin(listings: seq<seq<SourceFileSnapshot>>, maxFiles: nat)
    requires listings != []
    requires FileCount(listings[..|listings| - 1]) < maxFiles && FileCount(listings[..|listings|]) <= maxFiles
    ensures WithinFileLimit(listings, maxFiles)
  {
    assert listings[..|listings|] == listings;
  }

  /** Candidates belong to the source they are numbered for. */
  ghost predicate Belong(candidates: seq<CursorCandidate>, listings: seq<seq<SourceFileSnapshot>>) {
    forall i :: 0 <= i < |candidates| ==>
      && candidates[i].sourceIndex < |listings|
      && candidates[i].snapshot in listings[candidates[i].sourceIndex]
  }

  /** No two candidates have the same numbers. */
  ghost predicate Apart(candidates: seq<CursorCandidate>) {
    forall i, j :: 0 <= i < j < |candidates| ==>
      !(candidates[i].sourceIndex == candidates[j].sourceIndex && candidates[i].fileIndex == candidates[j].fileIndex)
  }

  ghost predicate WellNumbered(candidates: seq<CursorCandidate>, listings: seq<seq<SourceFileSnapshot>>) {
    Belong(candidates, listings) && Apart(candidates)
  }

  lemma {:induction false} CandidatesWellNumbered(listings: seq<seq<SourceFileSnapshot>>)
    ensures WellNumbered(CandidatesOf(listings), listings)
  {
    if listings == [] {
    } else {
      var last := |listings| - 1;
      var init, more := CandidatesOf(listings[..last]), Numbered(last, listings[last]);
      CandidatesWellNumbered(listings[..last]);
      NumberedApart(init, more, listings);
    }
  }

  /** The candidates of source `i` stand behind those of the sources before it, in the order of its listing. */
  lemma {:induction false} CandidateAt(listings: seq<seq<SourceFileSnapshot>>, i: nat, j: nat)
    requires i < |listings| && j < |listings[i]|
    ensures FileCount(listings[..i]) + j < FileCount(listings)
    ensures CandidatesOf(listings)[FileCount(listings[..i]) + j]
         == CursorCandidate(sourceIndex := i, fileIndex := j, snapshot := listings[i][j])
    ensures FileCount(listings[..i + 1]) == FileCount(listings[..i]) + |listings[i]|
  {
    hide CandidatesOf;
    var last := |listings| - 1;
    assert listings[..last + 1] == listings;
    MoreSources(listings, last);
    MoreSources(listings, i);
    if i < last {
      var init := listings[..last];
      assert init[..i] == listings[..i] && init[..i + 1] == listings[..i + 1];
      CandidateAt(init, i, j);
    }
  }

  lemma NumberedAll(sourceIndex: nat, files: seq<SourceFileSnapshot>)
    ensures forall i :: 0 <= i < |files| ==>
              Numbered(sourceIndex, files)[i] == CursorCandidate(sourceIndex, i, files[i])
    ensures |Numbered(sourceIndex, files)| == |files|
  {
  }

  lemma NumberedApart(init: seq<CursorCandidate>, more: seq<CursorCandidate>, listings: seq<seq<SourceFileSnapshot>>)
    requires listings != [] && WellNumbered(init, listings[..|listings| - 1])
    requires more == Numbered(|listings| - 1, listings[|listings| - 1])
    ensures WellNumbered(init + more, listings)
  {
    hide Numbered, Apart;
    NumberedAll(|listings| - 1, listings[|listings| - 1]);
    BelongToMore(init, listings);
    BothBelong(init, more, listings);
    assert forall k :: 0 <= k < |init| ==> init[k].sourceIndex < |listings| - 1;
    BothApart(init, more, |listings| - 1);
  }

  lemma BelongToMore(init: seq<CursorCandidate>, listings: seq<seq<SourceFileSnapshot>>)
    requires listings != [] && Belong(init, listings[..|listings| - 1])
    ensures Belong(init, listings)
  {
    forall i | 0 <= i < |init|
      ensures init[i].sourceIndex < |listings| && init[i].snapshot in listings[init[i].sourceIndex]
    {
      assert listings[..|listings| - 1][init[i].sourceIndex] == listings[init[i].sourceIndex];
    }
  }

  lemma BothBelong(a: seq<CursorCandidate>, b: seq<CursorCandidate>, listings: seq<seq<SourceFileSnapshot>>)
    requires Belong(a, listings) && Belong(b, listings)
    ensures Belong(a + b, listings)
  {
  }

  lemma BothApart(a: seq<CursorCandidate>, b: seq<CursorCandidate>, last: nat)
    requires Apart(a) && forall i :: 0 <= i < |a| ==> a[i].sourceIndex < last
    requires forall i :: 0 <= i < |b| ==> b[i].sourceIndex == last && b[i].fileIndex == i
    ensures Apart(a + b)
  {
  }

  // ---------- continuing a page ----------

  /** What the search does with its page's counters: the usage of the chain, and the state of the next page if any. */
  function Continuation(binding: QueryBinding, candidates: seq<CursorCandidate>, before: CumulativeQueryUsage,
                        page: ScannedPage)
    : Result<(CumulativeQueryUsage, Option<SearchCursorData>), QueryStateError>
  {
    var (usage, problem) := before.AddPage(page.summary.page);
    if problem.Some? && problem.value != CumulativeLimit then Err(problem.value)
    else if Pagination.Continuable(page) && problem.None? && page.results != [] then
      Ok((usage, Some(SearchCursorData(binding, candidates, page.results[|page.results| - 1].key, usage))))
    else Ok((usage, None))
  }

  /** The candidates, with the bytes their snapshots froze. */
  ghost predicate Freezes(frozen: seq<FrozenCandidate>, candidates: seq<CursorCandidate>) {
    |frozen| == |candidates| && forall i :: 0 <= i < |frozen| ==> frozen[i].candidate == candidates[i]
  }

  /** What candidates must satisfy to be stored in a cursor. */
  ghost predicate Storable(binding: QueryBinding, candidates: seq<CursorCandidate>) {
    && |candidates| <= MAX_CURSOR_CANDIDATES
    && (forall i :: 0 <= i < |candidates| ==>
          && candidates[i].sourceIndex < |binding.sourceIds|
          && candidates[i].snapshot.sourceId == binding.sourceIds[candidates[i].sourceIndex])
    && (forall i, j :: 0 <= i < j < |candidates| ==>
          !( && candidates[i].sourceIndex == candidates[j].sourceIndex
             && candidates[i].fileIndex == candidates[j].fileIndex
             && candidates[i].snapshot.fileId == candidates[j].snapshot.fileId))
  }

  /**
   A page that can be continued has returned something, whose last key belongs to a candidate and lies behind the
   watermark.
   */
  lemma LastResult(binding: QueryBinding, limits: LimitsConfig, frozen: seq<FrozenCandidate>,
                   after: Option<ResultWatermark>)
    requires binding.keyword != []
    requires Page(binding, limits, frozen, after).results != []
    ensures var page := Page(binding, limits, frozen, after);
            var key := page.results[|page.results| - 1].key;
            && key.lineNumber > 0 && Past(after, key) && PageFacts.OfSome(key, frozen)
            && page.summary.page.returnedResults == |page.results|
  {
    hide Page, PageOrigin.Names, Past, PageFacts.OfCandidate;
    var last := |Page(binding, limits, frozen, after).results| - 1;
    var x := Page(binding, limits, frozen, after).results[last];
    ReturnedCount(binding, limits, frozen, after);
    var _ := Pagination.ResultIsJudged(binding, limits, frozen, after, last);
    PageOrigin.PageComesFrom(binding, limits, frozen, after, last);
    var c :| 0 <= c < |frozen| && PageOrigin.FromCandidate(binding, limits, frozen[c], x);
    var m: ScanSpec.ScanMatch :| PageOrigin.Names(binding, limits, frozen[c], x, m);
    NamedKey(binding, limits, frozen[c], x, m);
  }

  lemma ReturnedCount(binding: QueryBinding, limits: LimitsConfig, frozen: seq<FrozenCandidate>,
                      after: Option<ResultWatermark>)
    ensures var page := Page(binding, limits, frozen, after);
            page.summary.page.returnedResults == |page.results|
  {
    hide ScanAll, EligibleOf, InRangeOf, Earliest, TakeWithin, CountOf;
  }

  lemma NamedKey(binding: QueryBinding, limits: LimitsConfig, frozen: FrozenCandidate, x: Ranked, m: ScanSpec.ScanMatch)
    requires PageOrigin.Names(binding, limits, frozen, x, m)
    ensures x.key.lineNumber > 0 && PageFacts.OfCandidate(x.key, frozen.candidate)
  {
    hide MatchFacts.Renders;
  }

  /** A page that may be continued is never empty: there is always a last key to continue behind. */
  lemma ContinuablePageHasResults(binding: QueryBinding, limits: LimitsConfig, frozen: seq<FrozenCandidate>,
                                  after: Option<ResultWatermark>)
    requires binding.maxResults > 0 && limits.maxReturnedContentBytes > 0
    requires Pagination.Continuable(Page(binding, limits, frozen, after))
    ensures Page(binding, limits, frozen, after).results != []
  {
    hide ScanAll, EligibleOf, InRangeOf, Sorted, TakeWithin, CountOf;
    var eligible := EligibleOf(InRangeOf(ScanAll(binding, limits, frozen).judged), after);
    SortedKeepsElements(eligible);
    Pagination.TakesPrefix(Earliest(eligible, binding.maxResults), 0, limits.maxReturnedContentBytes);
    NothingTaken(limits.maxReturnedContentBytes);
  }

  lemma NothingTaken(maximum: nat)
    ensures !TakeWithin([], 0, maximum).contentLimited
  {
  }

  lemma OfSomeCandidate(key: ResultWatermark, frozen: seq<FrozenCandidate>, candidates: seq<CursorCandidate>)
    requires Freezes(frozen, candidates) && PageFacts.OfSome(key, frozen)
    ensures exists i :: 0 <= i < |candidates|
              && candidates[i].sourceIndex == key.sourceIndex && candidates[i].fileIndex == key.fileIndex
  {
    var c :| 0 <= c < |frozen| && PageFacts.OfCandidate(key, frozen[c].candidate);
    assert candidates[c] == frozen[c].candidate;
  }

  /**
   Every continuation the search builds is acceptable, on a first page as on a later one; there is one exactly
   when the page can be continued and the cumulative limits allow another.
   */
  lemma ContinuationIsValid(binding: QueryBinding, limits: LimitsConfig, frozen: seq<FrozenCandidate>,
                            candidates: seq<CursorCandidate>, after: Option<ResultWatermark>,
                            before: CumulativeQueryUsage)
    requires binding.Valid() && limits.Valid() && Storable(binding, candidates) && Freezes(frozen, candidates)
    requires Continuation(binding, candidates, before, Page(binding, limits, frozen, after)).Ok?
    ensures var page := Page(binding, limits, frozen, after);
            var (usage, next) := Continuation(binding, candidates, before, page).value;
            && usage == before.Plus(page.summary.page)
            && (next.Some? <==> Pagination.Continuable(page) && usage.Valid())
            && (next.Some? ==>
                  && next.value.Valid() && next.value.query == binding && next.value.candidates == candidates
                  && next.value.usage == usage && Past(after, next.value.after))
  {
    hide Page, QueryBinding.Valid, Past, Pagination.Continuable;
    var page := Page(binding, limits, frozen, after);
    if page.results != [] {
      KeywordThere(binding);
      LastResult(binding, limits, frozen, after);
      OfSomeCandidate(page.results[|page.results| - 1].key, frozen, candidates);
    }
    if Pagination.Continuable(page) {
      PositiveLimits(binding, limits);
      ContinuablePageHasResults(binding, limits, frozen, after);
    }
  }

  lemma KeywordThere(binding: QueryBinding)
    requires binding.Valid()
    ensures binding.keyword != []
  {
  }

  lemma PositiveLimits(binding: QueryBinding, limits: LimitsConfig)
    requires binding.Valid() && limits.Valid()
    ensures binding.maxResults > 0 && limits.maxReturnedContentBytes > 0
  {
  }

  /** A later page's continuation continues the cursor the page was begun with. */
  lemma ContinuationFollows(cursor: SearchCursorData, limits: LimitsConfig, frozen: seq<FrozenCandidate>)
    requires cursor.Valid() && limits.Valid() && Freezes(frozen, cursor.candidates)
    requires Continuation(cursor.query, cursor.candidates, cursor.usage,
                          Page(cursor.query, limits, frozen, Some(cursor.after))).Ok?
    ensures var next := Continuation(cursor.query, cursor.candidates, cursor.usage,
                                     Page(cursor.query, limits, frozen, Some(cursor.after))).value.1;
            next.Some? ==> cursor.ContinuedBy(next.value)
  {
    hide Page, Continuation, QueryBinding.Valid;
    ContinuationIsValid(cursor.query, limits, frozen, cursor.candidates, Some(cursor.after), cursor.usage);
  }

  // ---------- committing under interleaving ----------

  /** Every stored cursor is acceptable. */
  ghost predicate AllValid(s: CursorStore.StoreState) {
    forall t :: t in s.entries ==> s.entries[t].data.Valid()
  }

  /** Nothing but valid cursors is ever stored. */
  lemma StepKeepsValid(config: P.Config, s: P.System, step: P.Step)
    requires P.Inv(config, s) && P.Enabled(s, step) && AllValid(s.store)
    ensures AllValid(P.Next(config, s, step).store)
  {
    hide SearchCursorData.Valid, P.Inv, P.Next, P.Enabled;
    P.EntriesComeFrom(config, s, step);
  }

  lemma {:induction false} EveryRunKeepsValid(config: P.Config, states: seq<P.System>, steps: seq<P.Step>, i: nat)
    requires config.capacity > 0 && P.Run(config, states, steps) && i < |states|
    ensures AllValid(states[i].store)
  {
    hide P.Next, P.Inv;
    if i == 0 {
    } else {
      EveryRunKeepsValid(config, states, steps, i - 1);
      P.EveryRunKeepsInv(config, states, steps, i - 1);
      StepKeepsValid(config, states[i - 1], steps[i - 1]);
      assert states[i - 1 + 1] == P.Next(config, states[i - 1], steps[i - 1]);
    }
  }

  /**
   In every run, whoever holds a lease and searches its page can commit the continuation: only an expiry time
   beyond the clock's range can refuse it.
   */
  lemma SearchCommits(config: P.Config, states: seq<P.System>, steps: seq<P.Step>, i: nat, leaseId: CursorStore.LeaseId,
                      limits: LimitsConfig, frozen: seq<FrozenCandidate>, now: nat, newToken: CursorStore.Token)
    requires config.capacity > 0 && P.Run(config, states, steps) && i < |states| && limits.Valid()
    requires leaseId in states[i].leases && Freezes(frozen, states[i].leases[leaseId].data.candidates)
    requires var cursor := states[i].leases[leaseId].data;
             Continuation(cursor.query, cursor.candidates, cursor.usage,
                          Page(cursor.query, limits, frozen, Some(cursor.after))).Ok?
    ensures var cursor := states[i].leases[leaseId].data;
            var next := Continuation(cursor.query, cursor.candidates, cursor.usage,
                                     Page(cursor.query, limits, frozen, Some(cursor.after))).value.1;
            P.CommitResult(config, states[i], leaseId, next, now, newToken).1
            == if next.Some? && CursorStore.Expiration(now, config.ttl).None? then Err(ExpirationOverflow)
               else Ok(if next.Some? then Some(newToken) else None)
  {
    hide Page, Continuation, SearchCursorData.Valid, SearchCursorData.ContinuedBy, CursorStore.WellFormed,
         CursorStore.Purged, CursorStore.Removed;
    var s := states[i];
    var cursor := s.leases[leaseId].data;
    P.EveryRunKeepsInv(config, states, steps, i);
    EveryRunKeepsValid(config, states, steps, i);
    assert P.Recorded(s, leaseId);
    ContinuationFollows(cursor, limits, frozen);
    var next := Continuation(cursor.query, cursor.candidates, cursor.usage,
                             Page(cursor.query, limits, frozen, Some(cursor.after))).value.1;
    P.LeaseIsNeverLost(config, s, leaseId, next, now, newToken);
  }

  // ---------- a whole session ----------

  /** Page after page, each begun with the state the page before it stored. */
  ghost predicate Session(binding: QueryBinding, limits: LimitsConfig, frozen: seq<FrozenCandidate>,
                          candidates: seq<CursorCandidate>, pages: seq<ScannedPage>, states: seq<SearchCursorData>)
  {
    && |pages| == |states| + 1
    && pages[0] == Page(binding, limits, frozen, None)
    && (forall i :: 0 <= i < |states| ==> StoredAfter(binding, candidates, UsageBefore(states, i), pages[i], states[i]))
    && forall i :: 0 <= i < |states| ==> pages[i + 1] == Page(binding, limits, frozen, Some(states[i].after))
  }

  function UsageBefore(states: seq<SearchCursorData>, i: nat): CumulativeQueryUsage
    requires i <= |states|
  {
    if i == 0 then NO_USAGE else states[i - 1].usage
  }

  /** The page was followed by storing `state`. */
  ghost predicate StoredAfter(binding: QueryBinding, candidates: seq<CursorCandidate>, before: CumulativeQueryUsage,
                              page: ScannedPage, state: SearchCursorData)
  {
    var r := Continuation(binding, candidates, before, page);
    r.Ok? && r.value.1 == Some(state)
  }

  /** One page of a session and the state stored behind it. */
  lemma SessionPage(binding: QueryBinding, limits: LimitsConfig, frozen: seq<FrozenCandidate>,
                    candidates: seq<CursorCandidate>, pages: seq<ScannedPage>, states: seq<SearchCursorData>, i: nat)
    requires Session(binding, limits, frozen, candidates, pages, states) && i < |states|
    ensures |pages| == |states| + 1
    ensures pages[i] == Page(binding, limits, frozen, if i == 0 then None else Some(states[i - 1].after))
    ensures StoredAfter(binding, candidates, UsageBefore(states, i), pages[i], states[i])
    ensures Pagination.Continuable(pages[i]) && pages[i].results != []
            && states[i].after == Pagination.LastKey(pages[i])
    ensures states[i].query == binding && states[i].candidates == candidates
  {
    hide Page;
    assert StoredAfter(binding, candidates, UsageBefore(states, i), pages[i], states[i]);
    if i > 0 {
      assert pages[i - 1 + 1] == Page(binding, limits, frozen, Some(states[i - 1].after));
    }
  }

  lemma ContinuedIsValid(cursor: SearchCursorData, next: SearchCursorData)
    requires cursor.ContinuedBy(next)
    ensures next.Valid()
  {
  }

  lemma StoredFirst(binding: QueryBinding, limits: LimitsConfig, frozen: seq<FrozenCandidate>,
                    candidates: seq<CursorCandidate>, state: SearchCursorData)
    requires binding.Valid() && limits.Valid() && Storable(binding, candidates) && Freezes(frozen, candidates)
    requires StoredAfter(binding, candidates, NO_USAGE, Page(binding, limits, frozen, None), state)
    ensures state.Valid()
  {
    hide Page, Continuation, QueryBinding.Valid, Storable, SearchCursorData.Valid;
    ContinuationIsValid(binding, limits, frozen, candidates, None, NO_USAGE);
  }

  lemma StoredLater(limits: LimitsConfig, frozen: seq<FrozenCandidate>, cursor: SearchCursorData,
                    state: SearchCursorData)
    requires cursor.Valid() && limits.Valid() && Freezes(frozen, cursor.candidates)
    requires StoredAfter(cursor.query, cursor.candidates, cursor.usage,
                         Page(cursor.query, limits, frozen, Some(cursor.after)), state)
    ensures cursor.ContinuedBy(state) && state.Valid()
  {
    hide Page, Continuation, SearchCursorData.Valid, SearchCursorData.ContinuedBy;
    ContinuationFollows(cursor, limits, frozen);
    ContinuedIsValid(cursor, state);
  }

  /** Every state of a session is valid, and continues the one before it. */
  lemma {:induction false} SessionStatesChain(binding: QueryBinding, limits: LimitsConfig, frozen: seq<FrozenCandidate>,
                                              candidates: seq<CursorCandidate>, pages: seq<ScannedPage>,
                                              states: seq<SearchCursorData>, i: nat)
    requires binding.Valid() && limits.Valid() && Storable(binding, candidates) && Freezes(frozen, candidates)
    requires Session(binding, limits, frozen, candidates, pages, states) && i < |states|
    ensures states[i].Valid() && (i > 0 ==> states[i - 1].ContinuedBy(states[i]))
  {
    hide Page, QueryBinding.Valid, Storable, SearchCursorData.Valid, SearchCursorData.ContinuedBy, Session, StoredAfter,
         Freezes;
    SessionPage(binding, limits, frozen, candidates, pages, states, i);
    if i == 0 {
      StoredFirst(binding, limits, frozen, candidates, states[0]);
    } else {
      SessionStatesChain(binding, limits, frozen, candidates, pages, states, i - 1);
      SessionPage(binding, limits, frozen, candidates, pages, states, i - 1);
      StoredLater(limits, frozen, states[i - 1], states[i]);
    }
  }

  /** The pages of a session form a chain. */
  lemma {:induction false} SessionPagesChain(binding: QueryBinding, limits: LimitsConfig, frozen: seq<FrozenCandidate>,
                                             candidates: seq<CursorCandidate>, pages: seq<ScannedPage>,
                                             states: seq<SearchCursorData>, n: nat)
    requires Session(binding, limits, frozen, candidates, pages, states) && n <= |pages|
    ensures Pagination.Chain(binding, limits, frozen, pages[..n])
  {
    hide Page, Session;
    if n == 0 {
    } else {
      SessionPagesChain(binding, limits, frozen, candidates, pages, states, n - 1);
      assert pages[..n][..n - 1] == pages[..n - 1];
      SessionBounds(binding, limits, frozen, candidates, pages, states);
      if n > 1 {
        SessionPage(binding, limits, frozen, candidates, pages, states, n - 2);
        SessionNext(binding, limits, frozen, candidates, pages, states, n - 2);
        assert pages[..n - 1][n - 2] == pages[n - 2];
      }
    }
  }

  lemma SessionBounds(binding: QueryBinding, limits: LimitsConfig, frozen: seq<FrozenCandidate>,
                      candidates: seq<CursorCandidate>, pages: seq<ScannedPage>, states: seq<SearchCursorData>)
    requires Session(binding, limits, frozen, candidates, pages, states)
    ensures |pages| == |states| + 1 && pages[0] == Page(binding, limits, frozen, None)
  {
  }

  lemma SessionNext(binding: QueryBinding, limits: LimitsConfig, frozen: seq<FrozenCandidate>,
                    candidates: seq<CursorCandidate>, pages: seq<ScannedPage>, states: seq<SearchCursorData>, i: nat)
    requires Session(binding, limits, frozen, candidates, pages, states) && i < |states|
    ensures pages[i + 1] == Page(binding, limits, frozen, Some(states[i].after))
  {
  }

  /**
   The whole service promise: the pages of a session, each begun with the cursor stored by the one before,
   return the sorted list of all matches in range from its beginning, without gap or repetition, up to its end
   when the last page is complete; at most 100 cursors are stored and at most 101 pages returned.
   */
  lemma SessionIsExact(binding: QueryBinding, limits: LimitsConfig, frozen: seq<FrozenCandidate>,
                       candidates: seq<CursorCandidate>, pages: seq<ScannedPage>, states: seq<SearchCursorData>)
    requires binding.Valid() && limits.Valid() && Storable(binding, candidates) && Freezes(frozen, candidates)
    requires PageFacts.DistinctIndexes(frozen) && Session(binding, limits, frozen, candidates, pages, states)
    ensures QueryState.Chain(states) && |states| <= 100 && |pages| <= 101
    ensures var all, shown := Pagination.AllResults(binding, limits, frozen), Pagination.Returned(pages);
            && |shown| <= |all| && Pagination.Shows(shown, all[..|shown|])
            && Pagination.PartsShown(pages, all, limits.maxReturnedContentBytes)
            && (pages[|pages| - 1].stopReason == QueryPageStopReason.Complete ==> |shown| == |all|)
  {
    hide Page, Pagination.AllResults, Pagination.Shows, Pagination.PartsShown, Pagination.Chain, Pagination.Returned,
         QueryBinding.Valid, Storable, Session, QueryState.Chain;
    SessionStates(binding, limits, frozen, candidates, pages, states);
    QueryState.ChainIsBounded(states);
    SessionBounds(binding, limits, frozen, candidates, pages, states);
    SessionPagesChain(binding, limits, frozen, candidates, pages, states, |pages|);
    assert pages[..|pages|] == pages;
    PositiveLimits(binding, limits);
    Pagination.PaginationExact(binding, limits, frozen, pages);
  }

  lemma SessionStates(binding: QueryBinding, limits: LimitsConfig, frozen: seq<FrozenCandidate>,
                      candidates: seq<CursorCandidate>, pages: seq<ScannedPage>, states: seq<SearchCursorData>)
    requires binding.Valid() && limits.Valid() && Storable(binding, candidates) && Freezes(frozen, candidates)
    requires Session(binding, limits, frozen, candidates, pages, states)
    ensures QueryState.Chain(states)
  {
    hide Page, QueryBinding.Valid, Storable, Session, SearchCursorData.Valid, SearchCursorData.ContinuedBy;
    forall i | 0 <= i < |states|
      ensures states[i].Valid()
    {
      SessionStatesChain(binding, limits, frozen, candidates, pages, states, i);
    }
    forall i | 0 <= i < |states| - 1
      ensures states[i].ContinuedBy(states[i + 1])
    {
      SessionStatesChain(binding, limits, frozen, candidates, pages, states, i + 1);
      assert states[i + 1 - 1] == states[i];
    }
  }

  /** Candidates built for a query can be stored in its cursor. */
  lemma BuiltAreStorable(binding: QueryBinding, limits: LimitsConfig, listings: seq<seq<SourceFileSnapshot>>,
                         frozen: seq<FrozenCandidate>)
    requires limits.Valid() && WithinFileLimit(listings, limits.maxScanFilesPerQuery)
             && |listings| == |binding.sourceIds|
    requires forall i, j :: 0 <= i < |listings| && 0 <= j < |listings[i]| ==>
               listings[i][j].sourceId == binding.sourceIds[i]
    requires Freezes(frozen, CandidatesOf(listings))
    ensures Storable(binding, CandidatesOf(listings)) && PageFacts.DistinctIndexes(frozen)
  {
    hide CandidatesOf;
    CandidatesWellNumbered(listings);
    NoSources(listings, limits.maxScanFilesPerQuery);
    assert listings == [] ==> listings == listings[..0];
  }
}
