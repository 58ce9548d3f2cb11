/**
 Facts about judged matches: filters and counters work piece by piece, every match is accounted for, and
 no two matches of a page share a key.
 */
module PageFacts {
  import opened Wrappers
  import opened Bytes
  import opened ScanSpec
  import opened Watermark
  import opened QueryState
  import opened PageSpec
  import ChunkedScan

  // ---------- piece by piece ----------

  lemma {:induction false} JudgeAllAppend(binding: QueryBinding, frozen: FrozenCandidate, a: seq<ScanMatch>,
                                          b: seq<ScanMatch>)
    ensures JudgeAll(binding, frozen.candidate, frozen.parser, frozen.bytes, a + b)
         == JudgeAll(binding, frozen.candidate, frozen.parser, frozen.bytes, a)
            + JudgeAll(binding, frozen.candidate, frozen.parser, frozen.bytes, b)
  {
    hide Judge;
    if b == [] {
      assert a + b == a;
    } else {
      var init := b[..|b| - 1];
      JudgeAllAppend(binding, frozen, a, init);
      assert (a + b)[..|a + b| - 1] == a + init;
    }
  }

  lemma {:induction false} JudgeAllAt(binding: QueryBinding, frozen: FrozenCandidate, found: seq<ScanMatch>, i: nat)
    requires i < |found|
    ensures |JudgeAll(binding, frozen.candidate, frozen.parser, frozen.bytes, found)| == |found|
    ensures JudgeAll(binding, frozen.candidate, frozen.parser, frozen.bytes, found)[i]
         == Judge(binding, frozen.candidate, frozen.parser, frozen.bytes, found[i])
  {
    hide Judge;
    var init := found[..|found| - 1];
    if i < |found| - 1 {
      JudgeAllAt(binding, frozen, init, i);
    } else if |init| > 0 {
      JudgeAllAt(binding, frozen, init, 0);
    }
  }

  lemma LastOf<T>(s: seq<T>, x: T)
    ensures (s + [x])[..|s + [x]| - 1] == s && (s + [x])[|s + [x]| - 1] == x
  {
  }

  // ---------- conservation ----------

  lemma {:induction false} InRangeAccounts(judged: seq<Judged>)
    ensures |judged| == CountOf(judged, OutOfRange) + |InRangeOf(judged)|
    ensures |InRangeOf(judged)|
         == CountOf(judged, InRange) + CountOf(judged, UnknownTimestamp) + CountOf(judged, MalformedTimestamp)
  {
    if judged == [] {
    } else {
      InRangeAccounts(judged[..|judged| - 1]);
    }
  }

  lemma {:induction false} EligibleIsShorter(ranked: seq<Ranked>, after: Option<ResultWatermark>)
    ensures |EligibleOf(ranked, after)| <= |ranked|
    ensures after == None ==> EligibleOf(ranked, after) == ranked
  {
    if ranked == [] {
    } else {
      EligibleIsShorter(ranked[..|ranked| - 1], after);
      assert ranked == ranked[..|ranked| - 1] + [ranked[|ranked| - 1]];
    }
  }

  /** Every raw match is filtered out by time, skipped before the watermark, or eligible. */
  lemma MatchesConserved(considered: nat, scan: PageScan, after: Option<ResultWatermark>)
    ensures var s := SummaryOf(considered, scan, after);
            s.page.rawMatches == s.page.filteredOutMatches + s.skippedBeforeWatermark + s.page.eligibleMatches
    ensures after == None ==> SummaryOf(considered, scan, after).skippedBeforeWatermark == 0
  {
    InRangeAccounts(scan.judged);
    EligibleIsShorter(InRangeOf(scan.judged), after);
  }

  // ---------- membership ----------

  /** `x` is one of the judged matches and the time filter keeps it. */
  ghost predicate Kept(judged: seq<Judged>, x: Ranked) {
    exists i :: 0 <= i < |judged| && judged[i].decision != OutOfRange && judged[i].ranked == x
  }

  lemma {:induction false} InRangeMembers(judged: seq<Judged>, x: Ranked)
    ensures x in InRangeOf(judged) <==> Kept(judged, x)
  {
    if judged == [] {
    } else {
      var init := judged[..|judged| - 1];
      InRangeMembers(init, x);
      assert forall i :: 0 <= i < |init| ==> init[i] == judged[i];
    }
  }

  lemma {:induction false} EligibleMembers(ranked: seq<Ranked>, after: Option<ResultWatermark>, x: Ranked)
    ensures x in EligibleOf(ranked, after) <==> x in ranked && Past(after, x.key)
  {
    if ranked == [] {
    } else {
      EligibleMembers(ranked[..|ranked| - 1], after, x);
      assert ranked == ranked[..|ranked| - 1] + [ranked[|ranked| - 1]];
    }
  }

  // ---------- distinct keys ----------

  ghost predicate DistinctJudged(judged: seq<Judged>) {
    forall i, j :: 0 <= i < j < |judged| ==> judged[i].ranked.key != judged[j].ranked.key
  }

  lemma {:induction false} InRangeDistinct(judged: seq<Judged>)
    requires DistinctJudged(judged)
    ensures DistinctKeys(InRangeOf(judged))
  {
    if judged == [] {
    } else {
      var init, last := judged[..|judged| - 1], judged[|judged| - 1];
      InRangeDistinct(init);
      forall i | 0 <= i < |InRangeOf(init)|
        ensures InRangeOf(init)[i].key != last.ranked.key
      {
        InRangeMembers(init, InRangeOf(init)[i]);
      }
    }
  }

  lemma {:induction false} EligibleDistinct(ranked: seq<Ranked>, after: Option<ResultWatermark>)
    requires DistinctKeys(ranked)
    ensures DistinctKeys(EligibleOf(ranked, after))
  {
    if ranked == [] {
    } else {
      var init, last := ranked[..|ranked| - 1], ranked[|ranked| - 1];
      EligibleDistinct(init, after);
      forall i | 0 <= i < |EligibleOf(init, after)|
        ensures EligibleOf(init, after)[i].key != last.key
      {
        EligibleMembers(init, after, EligibleOf(init, after)[i]);
      }
    }
  }

  /** No two candidates share both indexes; this is how candidates are numbered. */
  ghost predicate DistinctIndexes(frozen: seq<FrozenCandidate>) {
    forall i, j :: 0 <= i < j < |frozen| ==>
      !( && frozen[i].candidate.sourceIndex == frozen[j].candidate.sourceIndex
         && frozen[i].candidate.fileIndex == frozen[j].candidate.fileIndex)
  }

  /** The keys belong to candidates of `frozen`. */
  ghost predicate KeysOf(judged: seq<Judged>, frozen: seq<FrozenCandidate>) {
    forall i :: 0 <= i < |judged| ==> OfSome(judged[i].ranked.key, frozen)
  }

  ghost predicate OfSome(key: ResultWatermark, frozen: seq<FrozenCandidate>) {
    exists c :: 0 <= c < |frozen| && OfCandidate(key, frozen[c].candidate)
  }

  predicate OfCandidate(key: ResultWatermark, candidate: CursorCandidate) {
    key.sourceIndex == candidate.sourceIndex && key.fileIndex == candidate.fileIndex
  }

  ghost predicate LinesIncrease(found: seq<ScanMatch>) {
    forall i, j :: 0 <= i < j < |found| ==> found[i].lineNumber < found[j].lineNumber
  }

  ghost predicate NumberedFrom(found: seq<ScanMatch>, first: nat) {
    LinesIncrease(found) && forall i :: 0 <= i < |found| ==> first <= found[i].lineNumber
  }

  lemma NumberedCons(found: Option<ScanMatch>, rest: seq<ScanMatch>, first: nat)
    requires found.Some? ==> found.value.lineNumber == first
    requires NumberedFrom(rest, first + 1)
    ensures NumberedFrom(Listed(found) + rest, first)
  {
  }

  /** Matches are reported with rising line numbers, the first line being `position`'s. */
  lemma {:induction false} MatchLinesIncrease(query: LineQuery, s: seq<Byte>, position: ScanPosition)
    ensures NumberedFrom(AllMatches(query, s, position), position.lineNumber)
    ensures NumberedFrom(TerminatedMatches(query, s, position), position.lineNumber)
    decreases |s|
  {
    hide LineMatch, NumberedFrom, AllMatches, TerminatedMatches, NewlineIndex;
    var n := NewlineIndex(s);
    var found := LineMatch(query, s[..n], position);
    LineMatchNumber(query, s[..n], position);
    if n == |s| {
      UnterminatedNumbered(query, s, position);
    } else {
      var next := NextLine(position, n);
      ChunkedScan.FirstLineMatches(query, s, n, position);
      MatchLinesIncrease(query, s[n + 1..], next);
      NumberedCons(found, AllMatches(query, s[n + 1..], next), position.lineNumber);
      NumberedCons(found, TerminatedMatches(query, s[n + 1..], next), position.lineNumber);
    }
  }

  lemma UnterminatedNumbered(query: LineQuery, s: seq<Byte>, position: ScanPosition)
    requires NewlineIndex(s) == |s|
    ensures NumberedFrom(AllMatches(query, s, position), position.lineNumber)
    ensures NumberedFrom(TerminatedMatches(query, s, position), position.lineNumber)
  {
    hide LineMatch;
    ChunkedScan.NoLineFeed(query, s, position);
    LineMatchNumber(query, s, position);
  }

  lemma LineMatchNumber(query: LineQuery, line: seq<Byte>, position: ScanPosition)
    ensures LineMatch(query, line, position).Some? ==>
              LineMatch(query, line, position).value.lineNumber == position.lineNumber
  {
  }

  /** Judging another candidate's matches keeps all keys distinct. */
  lemma JudgedStayDistinct(binding: QueryBinding, earlier: seq<FrozenCandidate>, frozen: FrozenCandidate,
                           judged: seq<Judged>, found: seq<ScanMatch>)
    requires DistinctJudged(judged) && KeysOf(judged, earlier) && DistinctIndexes(earlier + [frozen])
    requires LinesIncrease(found)
    ensures var all := judged + JudgeAll(binding, frozen.candidate, frozen.parser, frozen.bytes, found);
            DistinctJudged(all) && KeysOf(all, earlier + [frozen])
  {
    hide JudgeAll;
    var more := JudgeAll(binding, frozen.candidate, frozen.parser, frozen.bytes, found);
    JudgedLength(binding, frozen, found);
    forall i | 0 <= i < |more|
      ensures OfCandidate(more[i].ranked.key, frozen.candidate) && more[i].ranked.key.lineNumber == found[i].lineNumber
    {
      JudgeAllAt(binding, frozen, found, i);
    }
    var all, both := judged + more, earlier + [frozen];
    forall i | 0 <= i < |judged|
      ensures OfSome(all[i].ranked.key, both)
      ensures !OfCandidate(all[i].ranked.key, frozen.candidate)
    {
      var c :| 0 <= c < |earlier| && OfCandidate(judged[i].ranked.key, earlier[c].candidate);
      assert both[c] == earlier[c] && both[|earlier|] == frozen;
    }
    assert both[|earlier|] == frozen;
  }

  lemma JudgedLength(binding: QueryBinding, frozen: FrozenCandidate, found: seq<ScanMatch>)
    ensures |JudgeAll(binding, frozen.candidate, frozen.parser, frozen.bytes, found)| == |found|
  {
    if found != [] {
      JudgeAllAt(binding, frozen, found, 0);
    }
  }

  /** All matches a page sees have distinct keys. */
  lemma {:induction false} PageKeysDistinct(binding: QueryBinding, limits: LimitsConfig, frozen: seq<FrozenCandidate>)
    requires DistinctIndexes(frozen)
    ensures DistinctJudged(ScanAll(binding, limits, frozen).judged)
    ensures KeysOf(ScanAll(binding, limits, frozen).judged, frozen)
  {
    hide ScanFile;
    if frozen == [] {
    } else {
      var init, last := frozen[..|frozen| - 1], frozen[|frozen| - 1];
      assert frozen == init + [last];
      PageKeysDistinct(binding, limits, init);
      var before := ScanAll(binding, limits, init);
      if before.limited {
        KeysOfMore(before.judged, init, last);
      } else {
        var scan := ScanFile(LineQueryOf(binding, limits), last.bytes,
                             limits.maxScanBytesPerPage - before.bytesScanned);
        FileLinesIncrease(LineQueryOf(binding, limits), last.bytes, limits.maxScanBytesPerPage - before.bytesScanned);
        JudgedStayDistinct(binding, init, last, before.judged, scan.matches);
      }
    }
  }

  lemma KeysOfMore(judged: seq<Judged>, earlier: seq<FrozenCandidate>, frozen: FrozenCandidate)
    requires KeysOf(judged, earlier)
    ensures KeysOf(judged, earlier + [frozen])
  {
    var both := earlier + [frozen];
    forall i | 0 <= i < |judged|
      ensures OfSome(judged[i].ranked.key, both)
    {
      var c :| 0 <= c < |earlier| && OfCandidate(judged[i].ranked.key, earlier[c].candidate);
      assert both[c] == earlier[c];
    }
  }

  lemma FileLinesIncrease(query: LineQuery, snapshot: seq<Byte>, remaining: nat)
    ensures LinesIncrease(ScanFile(query, snapshot, remaining).matches)
  {
    hide AllMatches, TerminatedMatches, LinesIncrease, LineCount, NewlineCount, EndUnseen;
    MatchLinesIncrease(query, snapshot, START);
    if |snapshot| > remaining {
      MatchLinesIncrease(query, snapshot[..remaining], START);
    }
  }
}
