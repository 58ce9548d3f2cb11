/**
 Pages along a cursor chain: each page rescans everything, keeps what lies behind the watermark, and returns
 exactly the next part of one sorted list of all matches.
 */
module Pagination {
  import opened Wrappers
  import opened Bytes
  import opened ScanSpec
  import opened Watermark
  import opened QueryState
  import opened PageSpec
  import PageFacts
  import Utf8

  // ---------- the byte budget of a page ----------

  function TotalSize(frozen: seq<FrozenCandidate>): nat {
    if frozen == [] then 0 else TotalSize(frozen[..|frozen| - 1]) + |frozen[|frozen| - 1].bytes|
  }

  /** A page scans all snapshots, or exactly as many bytes as it may. */
  lemma {:induction false} PageBytes(binding: QueryBinding, limits: LimitsConfig, frozen: seq<FrozenCandidate>)
    ensures var scan := ScanAll(binding, limits, frozen);
            && scan.bytesScanned == Min(TotalSize(frozen), limits.maxScanBytesPerPage)
            && (scan.limited <==> TotalSize(frozen) > limits.maxScanBytesPerPage)
    ensures !ScanAll(binding, limits, frozen).limited ==> ScanAll(binding, limits, frozen).filesScanned == |frozen|
  {
    hide AllMatches, TerminatedMatches, JudgeAll, NewlineCount, LineCount, EndUnseen;
    if frozen == [] {
    } else {
      PageBytes(binding, limits, frozen[..|frozen| - 1]);
    }
  }

  /** A page opens the candidates up to the first before which its byte budget is exceeded. */
  lemma {:induction false} FilesScannedExactly(binding: QueryBinding, limits: LimitsConfig,
                                               frozen: seq<FrozenCandidate>)
    ensures var k := ScanAll(binding, limits, frozen).filesScanned;
            && k <= |frozen| && (forall j: nat :: j < k ==> TotalSize(frozen[..j]) <= limits.maxScanBytesPerPage)
            && (k < |frozen| ==> TotalSize(frozen[..k]) > limits.maxScanBytesPerPage)
  {
    hide ScanFile, JudgeAll, TotalSize;
    if frozen == [] {
      assert frozen[..0] == frozen;
    } else {
      var init := frozen[..|frozen| - 1];
      FilesScannedExactly(binding, limits, init);
      PageBytes(binding, limits, init);
      assert forall j: nat :: j <= |init| ==> init[..j] == frozen[..j];
    }
  }

  /**
   A page stops with `ScanByteLimit` exactly when its snapshots are larger than the budget, whatever the
   watermark.
   */
  lemma ScanByteLimitExactly(binding: QueryBinding, limits: LimitsConfig, frozen: seq<FrozenCandidate>,
                             after: Option<ResultWatermark>)
    ensures Page(binding, limits, frozen, after).stopReason == QueryPageStopReason.ScanByteLimit
       <==> TotalSize(frozen) > limits.maxScanBytesPerPage
    ensures Page(binding, limits, frozen, after).summary.page.bytesScanned
            == Min(TotalSize(frozen), limits.maxScanBytesPerPage)
  {
    hide ScanAll, EligibleOf, InRangeOf, Earliest, TakeWithin, CountOf;
    PageBytes(binding, limits, frozen);
  }

  /** On unchanged snapshots no later page of a chain hits the byte budget when the first did not. */
  lemma LaterPagesWithinBudget(binding: QueryBinding, limits: LimitsConfig, frozen: seq<FrozenCandidate>,
                               after: Option<ResultWatermark>)
    requires Page(binding, limits, frozen, None).stopReason != QueryPageStopReason.ScanByteLimit
    ensures Page(binding, limits, frozen, after).stopReason != QueryPageStopReason.ScanByteLimit
    ensures Page(binding, limits, frozen, after).summary.page.bytesScanned == TotalSize(frozen)
  {
    hide Page;
    ScanByteLimitExactly(binding, limits, frozen, None);
    ScanByteLimitExactly(binding, limits, frozen, after);
  }

  // ---------- the list that pages cut into parts ----------

  /** All matches in range, in the global order. */
  function AllResults(binding: QueryBinding, limits: LimitsConfig, frozen: seq<FrozenCandidate>): seq<Ranked> {
    Sorted(InRangeOf(ScanAll(binding, limits, frozen).judged))
  }

  /** The watermark behind a part of the list. */
  function WatermarkBehind(returned: seq<Ranked>): Option<ResultWatermark> {
    if returned == [] then None else Some(returned[|returned| - 1].key)
  }

  lemma {:induction false} EligibleCount(ranked: seq<Ranked>, after: Option<ResultWatermark>, x: Ranked)
    ensures multiset(EligibleOf(ranked, after))[x] == if Past(after, x.key) then multiset(ranked)[x] else 0
  {
    if ranked == [] {
    } else {
      var init, last := ranked[..|ranked| - 1], ranked[|ranked| - 1];
      hide EligibleOf, Past;
      EligibleCount(init, after, x);
      assert ranked == init + [last];
      EligibleSnoc(init, last, after);
    }
  }

  lemma EligibleSnoc(init: seq<Ranked>, last: Ranked, after: Option<ResultWatermark>)
    ensures multiset(EligibleOf(init + [last], after))
         == multiset(EligibleOf(init, after)) + if Past(after, last.key) then multiset{last} else multiset{}
    ensures multiset(init + [last]) == multiset(init) + multiset{last}
  {
    hide Past;
    assert (init + [last])[..|init|] == init;
  }

  /** Behind the first part of the sorted list comes exactly the rest of it. */
  lemma RestIsEligible(ranked: seq<Ranked>, returned: seq<Ranked>, rest: seq<Ranked>)
    requires StrictlySorted(returned + rest) && multiset(ranked) == multiset(returned + rest)
    ensures multiset(EligibleOf(ranked, WatermarkBehind(returned))) == multiset(rest)
    ensures StrictlySorted(rest)
  {
    hide EligibleOf;
    var all, after := returned + rest, WatermarkBehind(returned);
    forall i | 0 <= i < |rest|
      ensures Past(after, rest[i].key)
    {
      if returned != [] {
        assert all[|returned| - 1] == returned[|returned| - 1] && all[|returned| + i] == rest[i];
      }
    }
    forall i | 0 <= i < |returned|
      ensures !Past(after, returned[i].key)
    {
      assert all[i] == returned[i] && all[|returned| - 1] == returned[|returned| - 1];
      OrderIsTotal(returned[i].key, returned[|returned| - 1].key);
    }
    forall x: Ranked
      ensures multiset(EligibleOf(ranked, after))[x] == multiset(rest)[x]
    {
      EligibleCount(ranked, after, x);
      assert multiset(all)[x] == multiset(returned)[x] + multiset(rest)[x];
      if Past(after, x.key) {
        assert x !in returned;
        assert multiset(returned)[x] == 0;
      } else {
        assert x !in rest;
        assert multiset(rest)[x] == 0;
      }
    }
    assert forall i, j :: 0 <= i < j < |rest| ==> all[|returned| + i] == rest[i] && all[|returned| + j] == rest[j];
  }

  /** The matches a page chooses from, in order, are the rest of the list. */
  lemma PageChoosesFromRest(binding: QueryBinding, limits: LimitsConfig, frozen: seq<FrozenCandidate>,
                            returned: seq<Ranked>, rest: seq<Ranked>)
    requires PageFacts.DistinctIndexes(frozen)
    requires AllResults(binding, limits, frozen) == returned + rest
    ensures var inRange := InRangeOf(ScanAll(binding, limits, frozen).judged);
            && Sorted(EligibleOf(inRange, WatermarkBehind(returned))) == rest
            && |EligibleOf(inRange, WatermarkBehind(returned))| == |rest| && |inRange| == |returned| + |rest|
  {
    hide ScanAll, EligibleOf, InRangeOf, Sorted;
    var judged := ScanAll(binding, limits, frozen).judged;
    var inRange := InRangeOf(judged);
    PageFacts.PageKeysDistinct(binding, limits, frozen);
    PageFacts.InRangeDistinct(judged);
    SortedIsSorted(inRange);
    SortedKeepsElements(inRange);
    RestIsEligible(inRange, returned, rest);
    HeapOrderIrrelevant(EligibleOf(inRange, WatermarkBehind(returned)), rest);
    SameElements(EligibleOf(inRange, WatermarkBehind(returned)), rest);
  }

  // ---------- the content budget ----------

  /** The returned result is the chosen one, possibly with its content cut short. */
  predicate ShownOf(shown: Ranked, chosen: Ranked) {
    && shown.key == chosen.key && shown.value.reference == chosen.value.reference
    && shown.value.value.content <= chosen.value.value.content
    && shown.value.value == chosen.value.value.(content := shown.value.value.content,
                                                contentTruncated := shown.value.value.contentTruncated)
    && (shown == chosen || shown.value.value.contentTruncated)
  }

  ghost predicate Shows(shown: seq<Ranked>, chosen: seq<Ranked>) {
    |shown| == |chosen| && forall i :: 0 <= i < |shown| ==> ShownOf(shown[i], chosen[i])
  }

  function ContentBytes(results: seq<Ranked>): nat {
    if results == [] then 0 else |results[0].value.value.content| + ContentBytes(results[1..])
  }

  /** The result with its content cut at the last char boundary within `room` bytes, which it exceeds. */
  predicate CutTo(shown: Ranked, chosen: Ranked, room: nat) {
    var content, n := chosen.value.value.content, |shown.value.value.content|;
    && n <= room < |content|
    && shown == chosen.(value := chosen.value.(value := chosen.value.value.(
         content := content[..n], contentTruncated := true)))
    && Utf8.CharBoundary(content, n) && forall i :: n < i <= room ==> !Utf8.CharBoundary(content, i)
  }

  /** Only the last result is changed: it does not fit, and is cut to what the others leave of the budget. */
  predicate CutAtEnd(shown: seq<Ranked>, chosen: seq<Ranked>, budget: nat) {
    && |shown| == |chosen| > 0
    && var last := |chosen| - 1;
    && shown[..last] == chosen[..last]
    && var spent := ContentBytes(chosen[..last]);
    && spent < budget < spent + |chosen[last].value.value.content|
    && CutTo(shown[last], chosen[last], budget - spent)
  }

  lemma ShortenedIsCut(chosen: Ranked, room: nat)
    requires room < |chosen.value.value.content|
    ensures CutTo(Shortened(chosen, room), chosen, room)
  {
    hide Utf8.CharBoundary;
  }

  lemma CutIsShown(shown: Ranked, chosen: Ranked, room: nat)
    requires CutTo(shown, chosen, room)
    ensures ShownOf(shown, chosen) && |shown.value.value.content| <= room
  {
    hide Utf8.CharBoundary;
  }

  lemma CutShows(shown: seq<Ranked>, chosen: seq<Ranked>, budget: nat)
    requires CutAtEnd(shown, chosen, budget)
    ensures Shows(shown, chosen)
  {
    hide ShownOf, CutTo;
    var last := |chosen| - 1;
    CutIsShown(shown[last], chosen[last], budget - ContentBytes(chosen[..last]));
    forall i | 0 <= i < last
      ensures ShownOf(shown[i], chosen[i])
    {
      assert shown[..last][i] == shown[i] && chosen[..last][i] == chosen[i];
      Unchanged(chosen[i]);
    }
  }

  lemma Unchanged(x: Ranked)
    ensures ShownOf(x, x)
  {
  }

  /** A result in front that fits leaves the rest of the budget to the others. */
  lemma CutCons(first: Ranked, shown: seq<Ranked>, chosen: seq<Ranked>, budget: nat)
    requires |first.value.value.content| <= budget && |shown| == |chosen|
    ensures CutAtEnd([first] + shown, [first] + chosen, budget)
       <==> CutAtEnd(shown, chosen, budget - |first.value.value.content|)
  {
    hide CutTo;
    if chosen != [] {
      var last := |chosen| - 1;
      assert ([first] + chosen)[..1 + last] == [first] + chosen[..last];
      assert ([first] + shown)[..1 + last] == [first] + shown[..last];
      ContentCons(first, chosen[..last]);
      assert ([first] + shown[..last])[1..] == shown[..last] && ([first] + chosen[..last])[1..] == chosen[..last];
    }
  }

  lemma CutAlone(first: Ranked, budget: nat)
    requires 0 < budget < |first.value.value.content|
    ensures CutAtEnd([Shortened(first, budget)], [first], budget)
    ensures ContentBytes([Shortened(first, budget)]) == |Shortened(first, budget).value.value.content| <= budget
  {
    hide Shortened, CutTo;
    ShortenedIsCut(first, budget);
    CutIsShown(Shortened(first, budget), first, budget);
  }

  lemma ContentCons(first: Ranked, rest: seq<Ranked>)
    ensures ContentBytes([first] + rest) == |first.value.value.content| + ContentBytes(rest)
  {
    assert ([first] + rest)[1..] == rest;
  }

  /**
   The budget takes a prefix of the results. It is exceeded exactly when the last of them is cut to what is left
   of it, or when it is used up exactly and there are more; otherwise everything is taken. A budget that is not
   used up takes at least one result.
   */
  lemma {:induction false} TakesPrefix(sorted: seq<Ranked>, used: nat, maximum: nat)
    requires used <= maximum
    ensures var s, k := TakeWithin(sorted, used, maximum), |TakeWithin(sorted, used, maximum).results|;
            && k <= |sorted| && s.contentBytes == used + ContentBytes(s.results) <= maximum
            && (s.results == sorted[..k] || CutAtEnd(s.results, sorted[..k], maximum - used))
            && (s.contentLimited
                <==> CutAtEnd(s.results, sorted[..k], maximum - used) || (k < |sorted| && s.contentBytes == maximum))
            && (!s.contentLimited ==> s.results == sorted)
            && (used < maximum && sorted != [] ==> s.results != [])
    decreases |sorted|
  {
    hide Shortened, CutAtEnd, TakeWithin, ContentBytes;
    if sorted == [] || used == maximum {
      TakesNothing(sorted, used, maximum);
    } else if |sorted[0].value.value.content| <= maximum - used {
      TakesPrefix(sorted[1..], used + |sorted[0].value.value.content|, maximum);
      TakesOneMore(sorted, used, maximum);
    } else {
      TakesCut(sorted, used, maximum);
    }
  }

  lemma TakesNothing(sorted: seq<Ranked>, used: nat, maximum: nat)
    requires used <= maximum && (sorted == [] || used == maximum)
    ensures TakeWithin(sorted, used, maximum) == Selection([], used, sorted != [])
    ensures ContentBytes([]) == 0 && !CutAtEnd([], sorted[..0], maximum - used)
  {
  }

  lemma TakesCut(sorted: seq<Ranked>, used: nat, maximum: nat)
    requires sorted != [] && used < maximum < used + |sorted[0].value.value.content|
    ensures var s := TakeWithin(sorted, used, maximum);
            && |s.results| == 1 && s.contentLimited && CutAtEnd(s.results, sorted[..1], maximum - used)
            && s.contentBytes == used + ContentBytes(s.results) <= maximum
  {
    hide Shortened;
    CutAlone(sorted[0], maximum - used);
    assert sorted[..1] == [sorted[0]];
  }

  /** A first result that fits changes nothing about what the budget does with the rest. */
  lemma TakesOneMore(sorted: seq<Ranked>, used: nat, maximum: nat)
    requires sorted != [] && used < maximum && used + |sorted[0].value.value.content| <= maximum
    ensures var more := used + |sorted[0].value.value.content|;
            var s, rest := TakeWithin(sorted, used, maximum), TakeWithin(sorted[1..], more, maximum);
            && s == Selection([sorted[0]] + rest.results, rest.contentBytes, rest.contentLimited)
            && ContentBytes(s.results) == |sorted[0].value.value.content| + ContentBytes(rest.results)
            && (|rest.results| < |sorted| ==>
                  && sorted[..|s.results|] == [sorted[0]] + sorted[1..][..|rest.results|]
                  && (CutAtEnd(s.results, sorted[..|s.results|], maximum - used)
                      <==> CutAtEnd(rest.results, sorted[1..][..|rest.results|], maximum - more)))
  {
    hide Shortened, CutAtEnd;
    var first, rest := sorted[0], TakeWithin(sorted[1..], used + |sorted[0].value.value.content|, maximum);
    ContentCons(first, rest.results);
    if |rest.results| < |sorted| {
      CutCons(first, rest.results, sorted[1..][..|rest.results|], maximum - used);
    }
  }

  lemma TakenShows(sorted: seq<Ranked>, used: nat, maximum: nat)
    requires used <= maximum
    ensures var shown := TakeWithin(sorted, used, maximum).results;
            |shown| <= |sorted| && Shows(shown, sorted[..|shown|])
  {
    hide CutAtEnd, TakeWithin, Shows;
    TakesPrefix(sorted, used, maximum);
    var k := |TakeWithin(sorted, used, maximum).results|;
    ShowsItself(sorted[..k]);
    if CutAtEnd(TakeWithin(sorted, used, maximum).results, sorted[..k], maximum - used) {
      CutShows(TakeWithin(sorted, used, maximum).results, sorted[..k], maximum - used);
    }
  }

  lemma ShowsItself(results: seq<Ranked>)
    ensures Shows(results, results)
  {
  }

  /** A result of a page shows one judged match that the time filter keeps and that lies behind the watermark. */
  lemma ResultIsJudged(binding: QueryBinding, limits: LimitsConfig, frozen: seq<FrozenCandidate>,
                       after: Option<ResultWatermark>, i: nat)
    returns (k: nat)
    requires i < |Page(binding, limits, frozen, after).results|
    ensures var judged, shown := ScanAll(binding, limits, frozen).judged,
            Page(binding, limits, frozen, after).results[i];
            && k < |judged| && judged[k].decision != OutOfRange
            && ShownOf(shown, judged[k].ranked) && Past(after, shown.key)
  {
    hide ScanAll, InRangeOf, EligibleOf, Sorted, TakeWithin, CountOf;
    var judged := ScanAll(binding, limits, frozen).judged;
    var inRange := InRangeOf(judged);
    var eligible := EligibleOf(inRange, after);
    var chosen := Earliest(eligible, binding.maxResults);
    var shown := TakeWithin(chosen, 0, limits.maxReturnedContentBytes).results;
    TakenShows(chosen, 0, limits.maxReturnedContentBytes);
    assert ShownOf(shown[i], chosen[..|shown|][i]);
    var x := chosen[i];
    SortedKeepsElements(eligible);
    assert x in Sorted(eligible) && x in multiset(Sorted(eligible)) && x in multiset(eligible);
    PageFacts.EligibleMembers(inRange, after, x);
    PageFacts.InRangeMembers(judged, x);
    k :| 0 <= k < |judged| && judged[k].decision != OutOfRange && judged[k].ranked == x;
  }

  // ---------- one page of a chain ----------

  /**
   The page shows these listed results, the last one cut short only when the page stopped for its content or scan
   budget.
   */
  predicate PageShows(page: ScannedPage, listed: seq<Ranked>, budget: nat) {
    || page.results == listed
    || (&& CutAtEnd(page.results, listed, budget)
        && (page.stopReason == QueryPageStopReason.ReturnedContentByteLimit
            || page.stopReason == QueryPageStopReason.ScanByteLimit))
  }

  /**
   Exactly one page: with `returned` already returned it shows the next results of the list and none other,
   unchanged except for a last one that does not fit; it is complete only at the end of the list, and otherwise
   has made progress and tells which of its limits it met.
   */
  lemma PageContinues(binding: QueryBinding, limits: LimitsConfig, frozen: seq<FrozenCandidate>,
                      returned: seq<Ranked>, rest: seq<Ranked>)
    requires binding.maxResults > 0 && limits.maxReturnedContentBytes > 0
    requires PageFacts.DistinctIndexes(frozen)
    requires AllResults(binding, limits, frozen) == returned + rest
    ensures var page, budget := Page(binding, limits, frozen, WatermarkBehind(returned)),
            limits.maxReturnedContentBytes;
            var k := |page.results|;
            && k <= |rest| && k <= binding.maxResults && PageShows(page, rest[..k], budget)
            && page.summary.page.returnedContentBytes == ContentBytes(page.results) <= budget
            && page.summary.page.returnedResults == k
            && page.summary.page.eligibleMatches == |rest| && page.summary.skippedBeforeWatermark == |returned|
            && (page.stopReason == QueryPageStopReason.Complete ==> page.results == rest)
            && (page.stopReason == QueryPageStopReason.ResultLimit ==> k == binding.maxResults < |rest|)
            && (page.stopReason == QueryPageStopReason.ReturnedContentByteLimit ==>
                  || CutAtEnd(page.results, rest[..k], budget)
                  || (k < |rest| && page.summary.page.returnedContentBytes == budget))
            && (rest != [] ==> page.results != [])
  {
    hide ScanAll, EligibleOf, InRangeOf, Sorted, TakeWithin, CountOf, CutAtEnd;
    PageChoosesFromRest(binding, limits, frozen, returned, rest);
    var eligible := EligibleOf(InRangeOf(ScanAll(binding, limits, frozen).judged), WatermarkBehind(returned));
    var chosen := Earliest(eligible, binding.maxResults);
    TakesPrefix(chosen, 0, limits.maxReturnedContentBytes);
    var selection := TakeWithin(chosen, 0, limits.maxReturnedContentBytes);
    assert chosen[..|selection.results|] == rest[..|selection.results|];
  }

  // ---------- the whole chain ----------

  /** A page after which the chain goes on. */
  predicate Continuable(page: ScannedPage) {
    page.stopReason == QueryPageStopReason.ResultLimit
    || page.stopReason == QueryPageStopReason.ReturnedContentByteLimit
  }

  function Returned(pages: seq<ScannedPage>): seq<Ranked> {
    if pages == [] then [] else Returned(pages[..|pages| - 1]) + pages[|pages| - 1].results
  }

  /** Every page begins behind the last result of the page before it. */
  ghost predicate Chain(binding: QueryBinding, limits: LimitsConfig, frozen: seq<FrozenCandidate>,
                        pages: seq<ScannedPage>)
  {
    pages != [] ==>
      var init := pages[..|pages| - 1];
      && Chain(binding, limits, frozen, init)
      && (init != [] ==> Continuable(init[|init| - 1]) && init[|init| - 1].results != [])
      && var after := if init == [] then None else Some(LastKey(init[|init| - 1]));
         pages[|pages| - 1] == Page(binding, limits, frozen, after)
  }

  function LastKey(page: ScannedPage): ResultWatermark {
    if page.results == [] then ResultWatermark(None, 0, 0, 0, 0) else page.results[|page.results| - 1].key
  }

  lemma ShowsAppend(a: seq<Ranked>, b: seq<Ranked>, c: seq<Ranked>, d: seq<Ranked>)
    requires Shows(a, b) && Shows(c, d)
    ensures Shows(a + c, b + d)
  {
  }

  lemma PageShowsListed(page: ScannedPage, listed: seq<Ranked>, budget: nat)
    requires PageShows(page, listed, budget)
    ensures Shows(page.results, listed)
  {
    hide Shows, CutAtEnd;
    if page.results == listed {
      ShowsItself(listed);
    } else {
      CutShows(page.results, listed, budget);
    }
  }

  /** Page `p` shows the part of the list that begins where the pages before it ended. */
  ghost predicate ShowsPart(pages: seq<ScannedPage>, p: nat, all: seq<Ranked>, budget: nat)
    requires p < |pages|
  {
    var first := |Returned(pages[..p])|;
    && first + |pages[p].results| <= |all|
    && PageShows(pages[p], all[first..first + |pages[p].results|], budget)
  }

  /**
   Every page shows its part of the list: each result is the listed one, or the last of its page, cut for the
   budget.
   */
  ghost predicate PartsShown(pages: seq<ScannedPage>, all: seq<Ranked>, budget: nat) {
    forall p :: 0 <= p < |pages| ==> ShowsPart(pages, p, all, budget)
  }

  lemma PartsGrow(pages: seq<ScannedPage>, all: seq<Ranked>, budget: nat)
    requires pages != [] && PartsShown(pages[..|pages| - 1], all, budget) && ShowsPart(pages, |pages| - 1, all, budget)
    ensures PartsShown(pages, all, budget)
  {
    hide PageShows;
    var init := pages[..|pages| - 1];
    forall p | 0 <= p < |init|
      ensures ShowsPart(pages, p, all, budget)
    {
      assert ShowsPart(init, p, all, budget);
      assert init[..p] == pages[..p];
    }
  }

  /**
   Pagination is exact: the pages of a chain show the beginning of the sorted list of all matches, in order,
   each match once and unchanged except for the last of a page that met its content budget; every page but an
   empty first one makes progress; a complete page ends the list.
   */
  lemma {:induction false} PaginationExact(binding: QueryBinding, limits: LimitsConfig, frozen: seq<FrozenCandidate>,
                                           pages: seq<ScannedPage>)
    requires binding.maxResults > 0 && limits.maxReturnedContentBytes > 0
    requires PageFacts.DistinctIndexes(frozen) && Chain(binding, limits, frozen, pages)
    ensures var all, shown := AllResults(binding, limits, frozen), Returned(pages);
            && |shown| <= |all| && Shows(shown, all[..|shown|])
            && PartsShown(pages, all, limits.maxReturnedContentBytes)
            && (pages != [] && pages[|pages| - 1].stopReason == QueryPageStopReason.Complete ==> |shown| == |all|)
            && (pages != [] && pages[|pages| - 1].results != [] ==>
                   shown != [] && shown[|shown| - 1].key == LastKey(pages[|pages| - 1]))
            && |shown| >= |pages| - 1 && (pages != [] && pages[|pages| - 1].results != [] ==> |shown| >= |pages|)
  {
    hide Page, AllResults, Shows, PageShows, PartsShown, Chain, Returned;
    var all, budget := AllResults(binding, limits, frozen), limits.maxReturnedContentBytes;
    NoPages(all, budget);
    if pages == [] {
    } else {
      var init, last := pages[..|pages| - 1], pages[|pages| - 1];
      ChainStep(binding, limits, frozen, pages);
      PaginationExact(binding, limits, frozen, init);
      var before := Returned(init);
      var returned, rest := all[..|before|], all[|before|..];
      assert all == returned + rest;
      ShowsKeys(before, returned);
      PageContinues(binding, limits, frozen, returned, rest);
      var part := rest[..|last.results|];
      PageShowsListed(last, part, budget);
      ShowsAppend(before, returned, last.results, part);
      assert returned + part == all[..|before| + |last.results|];
      assert part == all[|before|..|before| + |last.results|];
      PartsGrow(pages, all, budget);
    }
  }

  lemma NoPages(all: seq<Ranked>, budget: nat)
    ensures Returned([]) == [] && Shows([], all[..0]) && PartsShown([], all, budget)
  {
  }

  lemma ChainStep(binding: QueryBinding, limits: LimitsConfig, frozen: seq<FrozenCandidate>, pages: seq<ScannedPage>)
    requires pages != [] && Chain(binding, limits, frozen, pages)
    ensures var init, last := pages[..|pages| - 1], pages[|pages| - 1];
            && Chain(binding, limits, frozen, init) && Returned(pages) == Returned(init) + last.results
            && (init == [] ==> last == Page(binding, limits, frozen, None))
            && (init != [] ==>
                  && Continuable(init[|init| - 1]) && init[|init| - 1].results != []
                  && last == Page(binding, limits, frozen, Some(LastKey(init[|init| - 1]))))
  {
    hide Page;
  }

  lemma ShowsKeys(shown: seq<Ranked>, chosen: seq<Ranked>)
    requires Shows(shown, chosen)
    ensures |shown| == |chosen| && (shown != [] ==> shown[|shown| - 1].key == chosen[|chosen| - 1].key)
  {
  }

  /** Along a chain the keys returned rise strictly, in time and place: no result is repeated. */
  lemma KeysRise(binding: QueryBinding, limits: LimitsConfig, frozen: seq<FrozenCandidate>, pages: seq<ScannedPage>,
                 i: nat, j: nat)
    requires binding.maxResults > 0 && limits.maxReturnedContentBytes > 0
    requires PageFacts.DistinctIndexes(frozen) && Chain(binding, limits, frozen, pages)
    requires i < j < |Returned(pages)|
    ensures ComesBefore(Returned(pages)[i].key, Returned(pages)[j].key)
  {
    hide AllResults, Chain, ComesBefore;
    PaginationExact(binding, limits, frozen, pages);
    ListIsInOrder(binding, limits, frozen, i, j);
    var all := AllResults(binding, limits, frozen);
    assert all[..|Returned(pages)|][i] == all[i] && all[..|Returned(pages)|][j] == all[j];
  }

  /** The list goes by time, and at equal times by source, file, line and offset; unknown times come last. */
  lemma ListIsInOrder(binding: QueryBinding, limits: LimitsConfig, frozen: seq<FrozenCandidate>, i: nat, j: nat)
    requires PageFacts.DistinctIndexes(frozen) && i < j < |AllResults(binding, limits, frozen)|
    ensures ComesBefore(AllResults(binding, limits, frozen)[i].key, AllResults(binding, limits, frozen)[j].key)
  {
    hide ScanAll, InRangeOf, Sorted, ComesBefore, Precedes;
    var judged := ScanAll(binding, limits, frozen).judged;
    PageFacts.PageKeysDistinct(binding, limits, frozen);
    PageFacts.InRangeDistinct(judged);
    SortedIsSorted(InRangeOf(judged));
    OrderMeans(AllResults(binding, limits, frozen)[i].key, AllResults(binding, limits, frozen)[j].key);
  }

  /** Every match in range, and nothing else, is in the list that pages cut into parts. */
  lemma ListIsAllInRange(binding: QueryBinding, limits: LimitsConfig, frozen: seq<FrozenCandidate>, x: Ranked)
    ensures x in AllResults(binding, limits, frozen) <==> PageFacts.Kept(ScanAll(binding, limits, frozen).judged, x)
  {
    hide ScanAll, InRangeOf, Sorted;
    var judged := ScanAll(binding, limits, frozen).judged;
    var inRange := InRangeOf(judged);
    SortedKeepsElements(inRange);
    assert x in Sorted(inRange) <==> x in multiset(Sorted(inRange));
    assert x in inRange <==> x in multiset(inRange);
    PageFacts.InRangeMembers(judged, x);
  }
}
