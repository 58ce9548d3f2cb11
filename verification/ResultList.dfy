/**
 What the pages of a query return, said by the files alone: the reports of all located matches whose lines are not
 out of the time range, and no page returns anything out of it.
 */
module ResultList {
  import opened Wrappers
  import opened ScanSpec
  import opened Watermark
  import opened QueryState
  import opened PageSpec
  import Completeness
  import MatchFacts
  import PageFacts
  import PageOrigin
  import Pagination
  import TimeFilter

  // ---------- nothing out of range ----------

  /** The time filter keeps a match exactly when the time of its key is unknown or in range. */
  predicate KeptByTime(binding: QueryBinding, judged: Judged) {
    judged.decision != OutOfRange
    <==> (judged.ranked.key.timestampUtc.Some? ==> TimeFilter.InTime(binding, judged.ranked.key.timestampUtc.value))
  }

  ghost predicate AllKeptByTime(binding: QueryBinding, judged: seq<Judged>) {
    forall i :: 0 <= i < |judged| ==> KeptByTime(binding, judged[i])
  }

  lemma {:induction false} MatchesKeptByTime(binding: QueryBinding, frozen: FrozenCandidate, found: seq<ScanMatch>)
    ensures AllKeptByTime(binding, JudgeAll(binding, frozen.candidate, frozen.parser, frozen.bytes, found))
  {
    hide Judge, TimeFilter.TimeOf;
    if found == [] {
    } else {
      MatchesKeptByTime(binding, frozen, found[..|found| - 1]);
      TimeFilter.JudgedByItsTime(binding, frozen, found[|found| - 1]);
    }
  }

  lemma {:induction false} PageKeptByTime(binding: QueryBinding, limits: LimitsConfig, frozen: seq<FrozenCandidate>)
    ensures AllKeptByTime(binding, ScanAll(binding, limits, frozen).judged)
  {
    hide ScanFile, JudgeAll, KeptByTime;
    if frozen == [] {
    } else {
      var init, last := frozen[..|frozen| - 1], frozen[|frozen| - 1];
      PageKeptByTime(binding, limits, init);
      MatchesKeptByTime(binding, last,
                        ScanFile(LineQueryOf(binding, limits), last.bytes,
                                 limits.maxScanBytesPerPage - ScanAll(binding, limits, init).bytesScanned).matches);
    }
  }

  /** A listed match with a known time is not before the start and is before the end of the query's range. */
  lemma ListedIsInTime(binding: QueryBinding, limits: LimitsConfig, frozen: seq<FrozenCandidate>, i: nat)
    requires i < |Pagination.AllResults(binding, limits, frozen)|
    ensures var time := Pagination.AllResults(binding, limits, frozen)[i].key.timestampUtc;
            time.Some? ==>
              && (binding.startTime.Some? ==> binding.startTime.value <= time.value)
              && (binding.endTime.Some? ==> time.value < binding.endTime.value)
  {
    hide ScanAll, Pagination.AllResults;
    PageKeptByTime(binding, limits, frozen);
    Pagination.ListIsAllInRange(binding, limits, frozen, Pagination.AllResults(binding, limits, frozen)[i]);
  }

  /** The same of every page, also one that met its byte budget. */
  lemma ReturnedIsInTime(binding: QueryBinding, limits: LimitsConfig, frozen: seq<FrozenCandidate>,
                         after: Option<ResultWatermark>, i: nat)
    requires i < |Page(binding, limits, frozen, after).results|
    ensures var time := Page(binding, limits, frozen, after).results[i].key.timestampUtc;
            time.Some? ==>
              && (binding.startTime.Some? ==> binding.startTime.value <= time.value)
              && (binding.endTime.Some? ==> time.value < binding.endTime.value)
  {
    hide ScanAll, Page;
    PageKeptByTime(binding, limits, frozen);
    var k := Pagination.ResultIsJudged(binding, limits, frozen, after, i);
    assert KeptByTime(binding, ScanAll(binding, limits, frozen).judged[k]);
  }

  // ---------- everything else ----------

  /** `x` reports a match that is located in the candidate's file and is not out of time. */
  ghost predicate Shown(binding: QueryBinding, limits: LimitsConfig, frozen: FrozenCandidate, m: ScanMatch, x: Ranked) {
    && MatchFacts.Located(PageOrigin.Asked(binding, limits), frozen.bytes, m)
    && MatchFacts.Renders(PageOrigin.Asked(binding, limits), frozen.bytes, m)
    && !TimeFilter.OutOfTime(binding, TimeFilter.TimeOf(frozen, m))
    && x == PageOrigin.Report(binding, frozen, m)
  }

  ghost predicate ShownByOne(binding: QueryBinding, limits: LimitsConfig, frozen: FrozenCandidate, x: Ranked) {
    exists m: ScanMatch :: Shown(binding, limits, frozen, m, x)
  }

  ghost predicate ShownBySome(binding: QueryBinding, limits: LimitsConfig, frozen: seq<FrozenCandidate>, x: Ranked) {
    exists c :: 0 <= c < |frozen| && ShownByOne(binding, limits, frozen[c], x)
  }

  lemma KeptOfBoth(a: seq<Judged>, b: seq<Judged>, x: Ranked)
    ensures PageFacts.Kept(a + b, x) <==> PageFacts.Kept(a, x) || PageFacts.Kept(b, x)
  {
    if PageFacts.Kept(a, x) {
      var i :| 0 <= i < |a| && a[i].decision != OutOfRange && a[i].ranked == x;
      assert (a + b)[i] == a[i];
    }
    if PageFacts.Kept(b, x) {
      var i :| 0 <= i < |b| && b[i].decision != OutOfRange && b[i].ranked == x;
      assert (a + b)[|a| + i] == b[i];
    }
  }

  /** What one candidate brings into the list. */
  lemma KeptOfOne(binding: QueryBinding, limits: LimitsConfig, frozen: FrozenCandidate, x: Ranked)
    requires LineQueryOf(binding, limits).Searchable()
    ensures var query := LineQueryOf(binding, limits);
            PageFacts.Kept(JudgeAll(binding, frozen.candidate, frozen.parser, frozen.bytes,
                                    AllMatches(query, frozen.bytes, START)), x)
            <==> ShownByOne(binding, limits, frozen, x)
  {
    hide Judge, JudgeAll, TimeFilter.TimeOf, TimeFilter.OutOfTime, PageOrigin.Report, AllMatches, MatchFacts.Located,
         MatchFacts.Renders;
    var query := LineQueryOf(binding, limits);
    var found := AllMatches(query, frozen.bytes, START);
    var judged := JudgeAll(binding, frozen.candidate, frozen.parser, frozen.bytes, found);
    PageFacts.JudgedLength(binding, frozen, found);
    forall i: nat | i < |found|
      ensures judged[i].ranked == PageOrigin.Report(binding, frozen, found[i])
      ensures judged[i].decision != OutOfRange
              <==> !TimeFilter.OutOfTime(binding, TimeFilter.TimeOf(frozen, found[i]))
      ensures MatchFacts.Located(query, frozen.bytes, found[i]) && MatchFacts.Renders(query, frozen.bytes, found[i])
    {
      PageFacts.JudgeAllAt(binding, frozen, found, i);
      PageOrigin.JudgedIsReport(binding, frozen, found[i]);
      TimeFilter.JudgedByItsTime(binding, frozen, found[i]);
      assert found[i] in found;
      MatchFacts.MatchesAreLocated(query, frozen.bytes, found[i]);
    }
    if ShownByOne(binding, limits, frozen, x) {
      var m: ScanMatch :| Shown(binding, limits, frozen, m, x);
      MatchFacts.MatchesAreLocated(query, frozen.bytes, m);
      var i :| 0 <= i < |found| && found[i] == m;
      assert judged[i].ranked == x;
    } else {
      forall i | 0 <= i < |judged| && judged[i].decision != OutOfRange
        ensures judged[i].ranked != x
      {
        assert !Shown(binding, limits, frozen, found[i], x);
      }
    }
  }

  lemma ShownByMore(binding: QueryBinding, limits: LimitsConfig, init: seq<FrozenCandidate>, last: FrozenCandidate,
                    x: Ranked)
    ensures ShownBySome(binding, limits, init + [last], x)
       <==> ShownBySome(binding, limits, init, x) || ShownByOne(binding, limits, last, x)
  {
    hide ShownByOne;
    var all := init + [last];
    assert all[|init|] == last && forall c :: 0 <= c < |init| ==> all[c] == init[c];
  }

  lemma {:induction false} KeptIsShown(binding: QueryBinding, limits: LimitsConfig, frozen: seq<FrozenCandidate>,
                                       x: Ranked)
    requires LineQueryOf(binding, limits).Searchable()
    ensures PageFacts.Kept(Completeness.AllJudged(binding, limits, frozen), x)
            <==> ShownBySome(binding, limits, frozen, x)
  {
    hide PageFacts.Kept, JudgeAll, AllMatches, ShownByOne, ShownBySome, LineQuery.Searchable;
    if frozen == [] {
      NothingShown(binding, limits, x);
    } else {
      var init, last := frozen[..|frozen| - 1], frozen[|frozen| - 1];
      assert frozen == init + [last];
      KeptIsShown(binding, limits, init, x);
      KeptOfOne(binding, limits, last, x);
      ShownByMore(binding, limits, init, last, x);
      KeptOfBoth(Completeness.AllJudged(binding, limits, init),
                 JudgeAll(binding, last.candidate, last.parser, last.bytes,
                          AllMatches(LineQueryOf(binding, limits), last.bytes, START)), x);
    }
  }

  lemma NothingShown(binding: QueryBinding, limits: LimitsConfig, x: Ranked)
    ensures !PageFacts.Kept([], x) && !ShownBySome(binding, limits, [], x)
  {
  }

  /**
   The list that the pages of a query cut into parts is made of the reports of all matches located in the snapshots
   whose line shows no time out of range: unknown and malformed times are kept.
   */
  lemma ListIsExactly(binding: QueryBinding, limits: LimitsConfig, frozen: seq<FrozenCandidate>, x: Ranked)
    requires LineQueryOf(binding, limits).Searchable()
    requires Pagination.TotalSize(frozen) <= limits.maxScanBytesPerPage
    requires forall i :: 0 <= i < |frozen| ==>
               !Completeness.LosesLastLine(LineQueryOf(binding, limits), frozen[i].bytes)
    ensures x in Pagination.AllResults(binding, limits, frozen) <==> ShownBySome(binding, limits, frozen, x)
  {
    hide Completeness.LosesLastLine, Pagination.AllResults, PageFacts.Kept, ShownBySome, LineQuery.Searchable,
         Completeness.AllJudged;
    Completeness.ListIsEveryMatch(binding, limits, frozen, x);
    KeptIsShown(binding, limits, frozen, x);
  }
}
