/**
 Where the results of a page come from: each reports, and refers to, a match that is located in the snapshot of
 one of the candidates.
 */
module PageOrigin {
  import opened Wrappers
  import opened Bytes
  import opened ScanSpec
  import opened Watermark
  import opened QueryState
  import opened PageSpec
  import MatchFacts
  import PageFacts
  import Pagination
  import TimeFilter

  /** What a query looks for in each line. */
  function Asked(binding: QueryBinding, limits: LimitsConfig): LineQuery {
    LineQuery(keyword := binding.keyword, caseSensitive := binding.caseSensitive, maxLineBytes := limits.maxLineBytes)
  }

  /** The whole report of a match, with the time its source's rule finds in the line. */
  function Report(binding: QueryBinding, frozen: FrozenCandidate, m: ScanMatch): Ranked {
    var timestamp := TimeFilter.TimeOf(frozen, m).timestamp;
    var candidate, snapshot := frozen.candidate, frozen.candidate.snapshot;
    Keyed(
      key := ResultWatermark(
        timestampUtc := timestamp, sourceIndex := candidate.sourceIndex, fileIndex := candidate.fileIndex,
        lineNumber := m.lineNumber, matchByteOffset := m.matchByteOffset),
      value := Registered(
        value := QueryMatch(
          sourceId := snapshot.sourceId, fileId := snapshot.fileId, fileName := snapshot.relativePath,
          lineNumber := m.lineNumber, timestamp := timestamp, content := m.content,
          contentTruncated := m.contentTruncated, contentLossy := m.contentLossy,
          originalLineBytes := m.originalLineBytes, lineStartOffset := m.lineStartOffset,
          matchByteOffset := m.matchByteOffset),
        reference := MatchReferenceData(
          sourceId := snapshot.sourceId, fileId := snapshot.fileId, relativePath := snapshot.relativePath,
          fileIdentity := snapshot.identity, fileSizeAtMatch := snapshot.sizeAtSnapshot, lineNumber := m.lineNumber,
          lineStartOffset := m.lineStartOffset, matchByteOffset := m.matchByteOffset, keyword := binding.keyword,
          caseSensitive := binding.caseSensitive)))
  }

  /** This is what a judged match brings into the list. */
  lemma JudgedIsReport(binding: QueryBinding, frozen: FrozenCandidate, m: ScanMatch)
    ensures Judge(binding, frozen.candidate, frozen.parser, frozen.bytes, m).ranked == Report(binding, frozen, m)
  {
    hide Observe, TimeFilter.TimeOf;
    TimeFilter.ObservesItsLine(frozen, m);
  }

  /**
   The result reports, and refers to, a match that is located in the candidate's snapshot and renders its line
   there; only its content may have been cut short.
   */
  ghost predicate Names(binding: QueryBinding, limits: LimitsConfig, frozen: FrozenCandidate, x: Ranked, m: ScanMatch) {
    && MatchFacts.Located(Asked(binding, limits), frozen.bytes, m)
    && MatchFacts.Renders(Asked(binding, limits), frozen.bytes, m)
    && Pagination.ShownOf(x, Report(binding, frozen, m))
  }

  ghost predicate FromCandidate(binding: QueryBinding, limits: LimitsConfig, frozen: FrozenCandidate, x: Ranked) {
    exists m: ScanMatch :: Names(binding, limits, frozen, x, m)
  }

  ghost predicate FromSome(binding: QueryBinding, limits: LimitsConfig, frozen: seq<FrozenCandidate>, x: Ranked) {
    exists k :: 0 <= k < |frozen| && FromCandidate(binding, limits, frozen[k], x)
  }

  ghost predicate AllFromSome(binding: QueryBinding, limits: LimitsConfig, frozen: seq<FrozenCandidate>,
                              judged: seq<Judged>)
  {
    forall i :: 0 <= i < |judged| ==> FromSome(binding, limits, frozen, judged[i].ranked)
  }

  lemma ScannedAreLocated(query: LineQuery, bytes: seq<Byte>, remaining: nat)
    requires query.keyword != []
    ensures MatchFacts.AllLocated(query, bytes, ScanFile(query, bytes, remaining).matches)
    ensures MatchFacts.AllRendered(query, bytes, ScanFile(query, bytes, remaining).matches)
  {
    hide MatchFacts.Located, MatchFacts.Renders, MatchFacts.Ended, AllMatches, TerminatedMatches, EndUnseen,
         NewlineCount, LineCount;
    MatchFacts.FileMatchesLocated(query, bytes);
    MatchFacts.FileMatchesRendered(query, bytes);
    if |bytes| > remaining {
      var part := bytes[..remaining];
      MatchFacts.FileMatchesLocated(query, part);
      MatchFacts.FileMatchesRendered(query, part);
      var found := TerminatedMatches(query, part, START);
      forall i | 0 <= i < |found|
        ensures MatchFacts.Located(query, bytes, found[i]) && MatchFacts.Renders(query, bytes, found[i])
      {
        MatchFacts.LocatedInLonger(query, part, bytes, found[i]);
        MatchFacts.RenderedInLonger(query, part, bytes, found[i]);
      }
    }
  }

  lemma JudgedFromCandidate(binding: QueryBinding, limits: LimitsConfig, earlier: seq<FrozenCandidate>,
                            frozen: FrozenCandidate, before: seq<Judged>, found: seq<ScanMatch>)
    requires AllFromSome(binding, limits, earlier, before)
    requires MatchFacts.AllLocated(LineQueryOf(binding, limits), frozen.bytes, found)
    requires MatchFacts.AllRendered(LineQueryOf(binding, limits), frozen.bytes, found)
    ensures AllFromSome(binding, limits, earlier + [frozen],
                        before + JudgeAll(binding, frozen.candidate, frozen.parser, frozen.bytes, found))
  {
    hide MatchFacts.Located, MatchFacts.Renders, Judge, JudgeAll, Report;
    PageFacts.JudgedLength(binding, frozen, found);
    var more, all := JudgeAll(binding, frozen.candidate, frozen.parser, frozen.bytes, found), earlier + [frozen];
    forall i | 0 <= i < |before + more|
      ensures FromSome(binding, limits, all, (before + more)[i].ranked)
    {
      if i < |before| {
        var k :| 0 <= k < |earlier| && FromCandidate(binding, limits, earlier[k], before[i].ranked);
        assert all[k] == earlier[k];
      } else {
        var m := found[i - |before|];
        PageFacts.JudgeAllAt(binding, frozen, found, i - |before|);
        JudgedIsReport(binding, frozen, m);
        assert Names(binding, limits, frozen, more[i - |before|].ranked, m);
        assert all[|earlier|] == frozen;
      }
    }
  }

  lemma {:induction false} ScannedFromSome(binding: QueryBinding, limits: LimitsConfig, frozen: seq<FrozenCandidate>)
    requires binding.keyword != []
    ensures AllFromSome(binding, limits, frozen, ScanAll(binding, limits, frozen).judged)
  {
    hide ScanFile, AllFromSome, JudgeAll, MatchFacts.AllLocated, MatchFacts.AllRendered;
    if frozen == [] {
      NothingJudged(binding, limits, frozen);
    } else {
      var init, last := frozen[..|frozen| - 1], frozen[|frozen| - 1];
      assert frozen == init + [last];
      ScannedFromSome(binding, limits, init);
      var before := ScanAll(binding, limits, init);
      var remaining := limits.maxScanBytesPerPage - before.bytesScanned;
      NoneLocated(binding, limits, last.bytes);
      JudgedFromCandidate(binding, limits, init, last, before.judged, []);
      assert before.judged + JudgeAll(binding, last.candidate, last.parser, last.bytes, []) == before.judged by {
        PageFacts.JudgedLength(binding, last, []);
      }
      ScannedAreLocated(LineQueryOf(binding, limits), last.bytes, remaining);
      JudgedFromCandidate(binding, limits, init, last, before.judged,
                          ScanFile(LineQueryOf(binding, limits), last.bytes, remaining).matches);
    }
  }

  lemma NothingJudged(binding: QueryBinding, limits: LimitsConfig, frozen: seq<FrozenCandidate>)
    ensures AllFromSome(binding, limits, frozen, [])
  {
  }

  lemma NoneLocated(binding: QueryBinding, limits: LimitsConfig, bytes: seq<Byte>)
    ensures MatchFacts.AllLocated(LineQueryOf(binding, limits), bytes, [])
    ensures MatchFacts.AllRendered(LineQueryOf(binding, limits), bytes, [])
  {
  }

  /** Every result of a page reports a match that is located in one of the snapshots. */
  lemma PageComesFrom(binding: QueryBinding, limits: LimitsConfig, frozen: seq<FrozenCandidate>,
                      after: Option<ResultWatermark>, i: nat)
    requires binding.keyword != [] && i < |Page(binding, limits, frozen, after).results|
    ensures FromSome(binding, limits, frozen, Page(binding, limits, frozen, after).results[i])
  {
    hide ScanAll, Page, FromSome;
    ScannedFromSome(binding, limits, frozen);
    var k := Pagination.ResultIsJudged(binding, limits, frozen, after, i);
    ShownFromSome(binding, limits, frozen, Page(binding, limits, frozen, after).results[i],
                  ScanAll(binding, limits, frozen).judged[k].ranked);
  }

  /** A result that is shown shortened still reports the same match. */
  lemma ShownFromSome(binding: QueryBinding, limits: LimitsConfig, frozen: seq<FrozenCandidate>, shown: Ranked,
                      chosen: Ranked)
    requires Pagination.ShownOf(shown, chosen) && FromSome(binding, limits, frozen, chosen)
    ensures FromSome(binding, limits, frozen, shown)
  {
    hide MatchFacts.Located, MatchFacts.Renders;
    var k :| 0 <= k < |frozen| && FromCandidate(binding, limits, frozen[k], chosen);
    var m: ScanMatch :| Names(binding, limits, frozen[k], chosen, m);
    assert Names(binding, limits, frozen[k], shown, m);
  }
}
