/**
 What a scan of a whole file misses: nothing, except the unterminated last line of a file exactly as long as the
 largest scan; and hence which list the pages of a query cut into parts.
 */
module Completeness {
  import opened Wrappers
  import opened Bytes
  import opened ScanSpec
  import opened QueryState
  import opened PageSpec
  import ChunkedScan
  import PageFacts
  import Pagination

  /** Where the last line of `s` begins, when it does not end in a line feed; otherwise the end. */
  function LastLineStart(s: seq<Byte>): (start: nat)
    ensures start <= |s| && (start > 0 ==> s[start - 1] == LF)
    ensures forall i :: start <= i < |s| ==> s[i] != LF
  {
    if s == [] || s[|s| - 1] == LF then |s| else LastLineStart(s[..|s| - 1])
  }

  function LastLine(s: seq<Byte>): seq<Byte> {
    From(s, LastLineStart(s))
  }

  /** The last line's match, which a scan reports only when it sees the end of the data. */
  function LastMatch(query: LineQuery, s: seq<Byte>): seq<ScanMatch> {
    if LastLine(s) == [] then []
    else Listed(LineMatch(query, LastLine(s), ChunkedScan.Behind(START, s[..LastLineStart(s)])))
  }

  /** All matches are those of the terminated lines and the last line's. */
  lemma AllButLast(query: LineQuery, s: seq<Byte>)
    ensures AllMatches(query, s, START) == TerminatedMatches(query, s, START) + LastMatch(query, s)
  {
    hide LineMatch, AllMatches, TerminatedMatches, NewlineIndex, NewlineCount, LastLineStart;
    var start := LastLineStart(s);
    var whole, last := s[..start], LastLine(s);
    assert s == whole + last;
    assert whole != [] ==> whole[start - 1] == s[start - 1];
    forall i | 0 <= i < |last|
      ensures last[i] != LF
    {
      assert last[i] == s[start + i];
    }
    Unended(last);
    LastPart(query, whole, last);
  }

  lemma Unended(line: seq<Byte>)
    requires forall i :: 0 <= i < |line| ==> line[i] != LF
    ensures NewlineIndex(line) == |line|
  {
  }

  lemma LastPart(query: LineQuery, whole: seq<Byte>, last: seq<Byte>)
    requires ChunkedScan.WholeLines(whole) && NewlineIndex(last) == |last|
    ensures AllMatches(query, whole + last, START) == TerminatedMatches(query, whole + last, START)
              + if last == [] then [] else Listed(LineMatch(query, last, ChunkedScan.Behind(START, whole)))
  {
    hide LineMatch, AllMatches, TerminatedMatches, NewlineIndex, NewlineCount;
    ChunkedScan.MatchesSplit(query, whole, last, START);
    ChunkedScan.TerminatedSplit(query, whole, last, START);
    ChunkedScan.NoLineFeed(query, last, ChunkedScan.Behind(START, whole));
    EmptyLine(query, ChunkedScan.Behind(START, whole));
  }

  lemma EmptyLine(query: LineQuery, position: ScanPosition)
    ensures AllMatches(query, [], position) == [] && TerminatedMatches(query, [], position) == []
  {
  }

  /** The keyword stands in a last line that the scan cannot see the end of. */
  predicate LosesLastLine(query: LineQuery, snapshot: seq<Byte>) {
    && EndUnseen(query, snapshot, ChunkResultLimit(query.maxLineBytes))
    && LastLine(snapshot) != [] && FindFolded(LastLine(snapshot), query.keyword, query.caseSensitive).Some?
  }

  /** A file within the byte budget is reported completely if and only if it does not lose its last line. */
  lemma CompleteExactly(query: LineQuery, snapshot: seq<Byte>, remaining: nat)
    requires |snapshot| <= remaining
    ensures ScanFile(query, snapshot, remaining).matches == AllMatches(query, snapshot, START)
            <==> !LosesLastLine(query, snapshot)
  {
    hide AllMatches, TerminatedMatches, FindFolded, LastLine;
    AllButLast(query, snapshot);
    assert |LastMatch(query, snapshot)| == 1
        <==> LastLine(snapshot) != [] && FindFolded(LastLine(snapshot), query.keyword, query.caseSensitive).Some?;
  }

  /** `count` times the same byte. */
  function Repeat(b: Byte, count: nat): (s: seq<Byte>)
    ensures |s| == count && forall i :: 0 <= i < count ==> s[i] == b
  {
    if count == 0 then [] else Repeat(b, count - 1) + [b]
  }

  /** Such a file exists: one line of the largest size without a line feed, whose only match is not reported. */
  lemma LastLineLost()
    ensures var query, snapshot := LineQuery([97], true, 1), Repeat(97, MAX_SCAN_BYTES);
            && query.Searchable() && LosesLastLine(query, snapshot)
            && ScanFile(query, snapshot, MAX_SCAN_BYTES).matches == [] && |AllMatches(query, snapshot, START)| == 1
  {
    hide AllMatches, TerminatedMatches, LineMatch, Repeat, FindFolded, LastLine;
    var query, snapshot := LineQuery([97], true, 1), Repeat(97, MAX_SCAN_BYTES);
    OneLongLine(snapshot);
    assert OccursAt(snapshot, query.keyword, true, 0) by {
      assert snapshot[0..1] == [97];
    }
    FindFoldedIsLeftmost(snapshot, query.keyword, true);
    ChunkedScan.NoLineFeed(query, snapshot, START);
    FoundIsListed(query, snapshot, START);
    LimitIsPositive(1);
  }

  lemma FoundIsListed(query: LineQuery, line: seq<Byte>, position: ScanPosition)
    requires FindFolded(line, query.keyword, query.caseSensitive).Some?
    ensures |Listed(LineMatch(query, line, position))| == 1
  {
  }

  lemma LimitIsPositive(maxLineBytes: nat)
    ensures ChunkResultLimit(maxLineBytes) > 0
  {
  }

  lemma OneLongLine(s: seq<Byte>)
    requires s != [] && forall i :: 0 <= i < |s| ==> s[i] == 97
    ensures LastLine(s) == s && NewlineIndex(s) == |s|
  {
    assert LastLineStart(s) == 0;
  }

  // ---------- all candidates ----------

  /** Every match of every candidate, in scanning order, judged. */
  function AllJudged(binding: QueryBinding, limits: LimitsConfig, frozen: seq<FrozenCandidate>): seq<Judged> {
    if frozen == [] then []
    else
      var last := frozen[|frozen| - 1];
      AllJudged(binding, limits, frozen[..|frozen| - 1])
      + JudgeAll(binding, last.candidate, last.parser, last.bytes,
                 AllMatches(LineQueryOf(binding, limits), last.bytes, START))
  }

  /** Within the page's byte budget and without the lost last line, a page judges every match of every candidate. */
  lemma {:induction false} EverythingJudged(binding: QueryBinding, limits: LimitsConfig, frozen: seq<FrozenCandidate>)
    requires Pagination.TotalSize(frozen) <= limits.maxScanBytesPerPage
    requires forall i :: 0 <= i < |frozen| ==> !LosesLastLine(LineQueryOf(binding, limits), frozen[i].bytes)
    ensures ScanAll(binding, limits, frozen).judged == AllJudged(binding, limits, frozen)
  {
    hide AllMatches, JudgeAll, ScanFile, LosesLastLine;
    if frozen == [] {
    } else {
      var init, last := frozen[..|frozen| - 1], frozen[|frozen| - 1];
      EverythingJudged(binding, limits, init);
      Pagination.PageBytes(binding, limits, init);
      CompleteExactly(LineQueryOf(binding, limits), last.bytes,
                      limits.maxScanBytesPerPage - ScanAll(binding, limits, init).bytesScanned);
    }
  }

  /**
   The list that the pages of a query cut into parts holds every match in range of every candidate, and nothing
   else.
   */
  lemma ListIsEveryMatch(binding: QueryBinding, limits: LimitsConfig, frozen: seq<FrozenCandidate>, x: Ranked)
    requires Pagination.TotalSize(frozen) <= limits.maxScanBytesPerPage
    requires forall i :: 0 <= i < |frozen| ==> !LosesLastLine(LineQueryOf(binding, limits), frozen[i].bytes)
    ensures x in Pagination.AllResults(binding, limits, frozen)
            <==> PageFacts.Kept(AllJudged(binding, limits, frozen), x)
  {
    hide ScanAll, AllJudged, Pagination.AllResults, LosesLastLine;
    EverythingJudged(binding, limits, frozen);
    Pagination.ListIsAllInRange(binding, limits, frozen, x);
  }
}
