/**
 The counters of a page, said by what it reads: lines and bytes, the matches it sees, and how many of these have a
 known time out of range, no time, or a malformed one.
 */
module PageCounters {
  import opened Wrappers
  import opened Bytes
  import opened ScanSpec
  import opened Watermark
  import opened QueryState
  import opened PageSpec
  import opened TimeFilter
  import ContextLines
  import PageFacts
  import Pagination

  /** How many of them are so. */
  function Count<T>(s: seq<T>, p: T -> bool): nat {
    if s == [] then 0 else Count(s[..|s| - 1], p) + if p(s[|s| - 1]) then 1 else 0
  }

  // ---------- what a page sees ----------

  /** The times found in the lines of these matches. */
  function TimesOf(frozen: FrozenCandidate, found: seq<ScanMatch>): seq<TimestampObservation> {
    if found == [] then [] else TimesOf(frozen, found[..|found| - 1]) + [TimeOf(frozen, found[|found| - 1])]
  }

  /** What is left of the byte budget for the last of the candidates, when the page comes to it. */
  function LeftForLast(limits: LimitsConfig, frozen: seq<FrozenCandidate>): Option<nat>
    requires frozen != []
  {
    var before := Pagination.TotalSize(frozen[..|frozen| - 1]);
    if before > limits.maxScanBytesPerPage then None else Some(limits.maxScanBytesPerPage - before)
  }

  /** The times in the lines of all matches that a page sees. */
  function TimesSeen(binding: QueryBinding, limits: LimitsConfig, frozen: seq<FrozenCandidate>)
    : seq<TimestampObservation>
  {
    if frozen == [] then []
    else
      var last := frozen[|frozen| - 1];
      TimesSeen(binding, limits, frozen[..|frozen| - 1])
      + match LeftForLast(limits, frozen)
        case None => []
        case Some(left) => TimesOf(last, ScanFile(LineQueryOf(binding, limits), last.bytes, left).matches)
  }

  /** Each match is decided by its time. */
  ghost predicate AllDecided(binding: QueryBinding, judged: seq<Judged>, times: seq<TimestampObservation>) {
    |judged| == |times| && forall i :: 0 <= i < |judged| ==> Decided(binding, judged[i].decision, times[i])
  }

  lemma {:induction false} MatchesDecided(binding: QueryBinding, frozen: FrozenCandidate, found: seq<ScanMatch>)
    ensures AllDecided(binding, JudgeAll(binding, frozen.candidate, frozen.parser, frozen.bytes, found),
                       TimesOf(frozen, found))
  {
    hide Judge, TimeOf, Decided;
    if found == [] {
    } else {
      MatchesDecided(binding, frozen, found[..|found| - 1]);
      JudgedByItsTime(binding, frozen, found[|found| - 1]);
    }
  }

  lemma DecidedAppend(binding: QueryBinding, judged: seq<Judged>, times: seq<TimestampObservation>,
                      moreJudged: seq<Judged>, moreTimes: seq<TimestampObservation>)
    requires AllDecided(binding, judged, times) && AllDecided(binding, moreJudged, moreTimes)
    ensures AllDecided(binding, judged + moreJudged, times + moreTimes)
  {
    hide Decided;
  }

  lemma {:induction false} PageDecided(binding: QueryBinding, limits: LimitsConfig, frozen: seq<FrozenCandidate>)
    ensures AllDecided(binding, ScanAll(binding, limits, frozen).judged, TimesSeen(binding, limits, frozen))
  {
    hide ScanFile, AllDecided, JudgeAll, TimesOf;
    if frozen == [] {
      NothingDecided(binding);
    } else {
      var init, last := frozen[..|frozen| - 1], frozen[|frozen| - 1];
      PageDecided(binding, limits, init);
      Pagination.PageBytes(binding, limits, init);
      var before, times := ScanAll(binding, limits, init), TimesSeen(binding, limits, init);
      match LeftForLast(limits, frozen)
      case None => assert times + [] == times;
      case Some(left) =>
        var found := ScanFile(LineQueryOf(binding, limits), last.bytes, left).matches;
        MatchesDecided(binding, last, found);
        DecidedAppend(binding, before.judged, times,
                      JudgeAll(binding, last.candidate, last.parser, last.bytes, found), TimesOf(last, found));
    }
  }

  lemma NothingDecided(binding: QueryBinding)
    ensures AllDecided(binding, [], [])
  {
  }

  // ---------- lines ----------

  /**
   The lines that end in what is read of a file: one for each line feed, and one for an unterminated end that the
   scan sees.
   */
  function LinesOf(query: LineQuery, bytes: seq<Byte>, left: nat): nat {
    if |bytes| > left then Count(bytes[..left], b => b == LF)
    else
      Count(bytes, b => b == LF)
      + if bytes == [] || bytes[|bytes| - 1] == LF || EndUnseen(query, bytes, ChunkResultLimit(query.maxLineBytes))
        then 0 else 1
  }

  /** All lines that a page reads. */
  function LinesSeen(binding: QueryBinding, limits: LimitsConfig, frozen: seq<FrozenCandidate>): nat {
    if frozen == [] then 0
    else
      LinesSeen(binding, limits, frozen[..|frozen| - 1])
      + match LeftForLast(limits, frozen)
        case None => 0
        case Some(left) => LinesOf(LineQueryOf(binding, limits), frozen[|frozen| - 1].bytes, left)
  }

  lemma {:induction false} FeedsCounted(s: seq<Byte>)
    ensures NewlineCount(s) == Count(s, b => b == LF)
  {
    hide NewlineCount;
    if s == [] {
      NoFeed();
    } else {
      var init, last := s[..|s| - 1], s[|s| - 1];
      FeedsCounted(init);
      assert s == init + [last];
      ContextLines.NewlineSnoc(init, last);
    }
  }

  lemma NoFeed()
    ensures NewlineCount([]) == 0
  {
  }

  /** Only an unterminated end makes the lines more than the line feeds. */
  lemma {:induction false} LastLineCounts(s: seq<Byte>)
    ensures LineCount(s) == NewlineCount(s) + if s == [] || s[|s| - 1] == LF then 0 else 1
    decreases |s|
  {
    hide NewlineIndex;
    var n := NewlineIndex(s);
    if n < |s| {
      var rest := s[n + 1..];
      LastLineCounts(rest);
      assert rest != [] ==> rest[|rest| - 1] == s[|s| - 1];
    }
  }

  lemma {:induction false} LinesCounted(binding: QueryBinding, limits: LimitsConfig, frozen: seq<FrozenCandidate>)
    ensures ScanAll(binding, limits, frozen).linesScanned == LinesSeen(binding, limits, frozen)
  {
    hide AllMatches, TerminatedMatches, JudgeAll, NewlineCount, LineCount, EndUnseen, Count;
    if frozen == [] {
    } else {
      var init, last := frozen[..|frozen| - 1], frozen[|frozen| - 1];
      LinesCounted(binding, limits, init);
      Pagination.PageBytes(binding, limits, init);
      match LeftForLast(limits, frozen)
      case None =>
      case Some(left) =>
        FeedsCounted(last.bytes[..Min(left, |last.bytes|)]);
        FeedsCounted(last.bytes);
        LastLineCounts(last.bytes);
    }
  }

  // ---------- the counters of a page ----------

  lemma {:induction false} CountedAlike(judged: seq<Judged>, decision: TimeFilterDecision,
                                        times: seq<TimestampObservation>, p: TimestampObservation -> bool)
    requires |judged| == |times|
    requires forall i :: 0 <= i < |judged| ==> (judged[i].decision == decision <==> p(times[i]))
    ensures CountOf(judged, decision) == Count(times, p)
  {
    if judged == [] {
    } else {
      CountedAlike(judged[..|judged| - 1], decision, times[..|times| - 1], p);
    }
  }

  /**
   What a page counts: every match it sees, those with a known time out of range, those without a time and those
   with a malformed one. The matches in range lie behind the watermark or not.
   */
  lemma CountersAreExact(binding: QueryBinding, limits: LimitsConfig, frozen: seq<FrozenCandidate>,
                         after: Option<ResultWatermark>)
    ensures var summary, times := Page(binding, limits, frozen, after).summary, TimesSeen(binding, limits, frozen);
            && summary.page.filesConsidered == |frozen|
            && summary.page.linesScanned == LinesSeen(binding, limits, frozen)
            && summary.page.rawMatches == |times|
            && summary.page.filteredOutMatches == Count(times, seen => OutOfTime(binding, seen))
            && summary.page.unknownTimestampMatches
               == Count(times, (seen: TimestampObservation) => seen.timestamp.None? && !seen.malformed)
            && summary.page.malformedTimestampMatches
               == Count(times, (seen: TimestampObservation) => seen.timestamp.None? && seen.malformed)
            && summary.page.eligibleMatches + summary.skippedBeforeWatermark
               == Count(times, seen => !OutOfTime(binding, seen))
  {
    hide ScanAll, TimesSeen, LinesSeen, InRangeOf, EligibleOf, Earliest, TakeWithin, CountOf, Count, OutOfTime;
    var scan, times := ScanAll(binding, limits, frozen), TimesSeen(binding, limits, frozen);
    PageDecided(binding, limits, frozen);
    LinesCounted(binding, limits, frozen);
    CountedAlike(scan.judged, OutOfRange, times, seen => OutOfTime(binding, seen));
    CountedAlike(scan.judged, UnknownTimestamp, times,
                 (seen: TimestampObservation) => seen.timestamp.None? && !seen.malformed);
    CountedAlike(scan.judged, MalformedTimestamp, times,
                 (seen: TimestampObservation) => seen.timestamp.None? && seen.malformed);
    PageFacts.MatchesConserved(|frozen|, scan, after);
    CountOthers(times, seen => OutOfTime(binding, seen), seen => !OutOfTime(binding, seen));
  }

  lemma {:induction false} CountOthers<T>(s: seq<T>, p: T -> bool, q: T -> bool)
    requires forall x :: q(x) <==> !p(x)
    ensures Count(s, p) + Count(s, q) == |s|
  {
    if s == [] {
    } else {
      CountOthers(s[..|s| - 1], p, q);
    }
  }
}
