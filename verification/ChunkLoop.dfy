/**
 Scanning a file in chunks, each resumed at the position the one before reported, is one unlimited scan of the
 file: the same matches in the same order, the same number of lines and of bytes.
 */
module ChunkLoop {
  import opened Bytes
  import opened Collections
  import opened ScanSpec
  import opened ChunkedScan
  import opened FileChunks
  import opened CandidateScan
  import opened PageSpec

  /** The chunks from `position` on, with `allowance` bytes for the whole file. */
  function ScanChunks(query: LineQuery, file: seq<Byte>, position: ScanPosition, allowance: nat): FileScan
    requires Standing(query, file, position, allowance)
    decreases |file| - position.byteOffset
  {
    if position.byteOffset >= |file| || position.byteOffset >= allowance then FileScan([], 0, 0)
    else
      ChunkTurn(query, file, position, allowance);
      var o := ChunkScan(query, file, position, allowance);
      if o.stopReason == ScanStopReason.ResultLimit && position.byteOffset + o.bytesScanned < |file| then
        var rest := ScanChunks(query, file, o.nextPosition.value, allowance);
        FileScan(o.results + rest.matches, o.bytesScanned + rest.bytesScanned, o.linesScanned + rest.linesScanned)
      else FileScan(o.results, o.bytesScanned, o.linesScanned)
  }

  /** Nothing is left when the loop stands at the end of the file or of its allowance. */
  lemma NothingLeft(query: LineQuery, file: seq<Byte>, position: ScanPosition, allowance: nat)
    requires Standing(query, file, position, allowance)
    requires position.byteOffset == |file| || position.byteOffset == allowance
    ensures var whole := ScanFile(query, file, allowance);
            && MatchesBefore(query, file, position) == whole.matches
            && position.byteOffset == whole.bytesScanned
            && NewlineCount(file[..position.byteOffset]) == whole.linesScanned
  {
    hide AllMatches, TerminatedMatches, NewlineCount, LineCount, EndUnseen;
    if position.byteOffset == |file| {
      assert file[..position.byteOffset] == file;
      AllTerminated(query, file, START);
    }
  }

  /** However many chunks it takes, together they are what scanning the file means. */
  lemma {:induction false} ChunksAreTheFile(query: LineQuery, file: seq<Byte>, position: ScanPosition, allowance: nat)
    requires Standing(query, file, position, allowance)
    ensures var chunks, whole := ScanChunks(query, file, position, allowance), ScanFile(query, file, allowance);
            && position.byteOffset <= |file|
            && MatchesBefore(query, file, position) + chunks.matches == whole.matches
            && position.byteOffset + chunks.bytesScanned == whole.bytesScanned
            && NewlineCount(file[..position.byteOffset]) + chunks.linesScanned == whole.linesScanned
    decreases |file| - position.byteOffset
  {
    hide ChunkScan, ScanFile, NewlineCount, TerminatedMatches, MatchesBefore, Reached;
    StandingInside(query, file, position, allowance);
    if position.byteOffset >= |file| || position.byteOffset >= allowance {
      NothingLeft(query, file, position, allowance);
      assert MatchesBefore(query, file, position) + [] == MatchesBefore(query, file, position);
    } else {
      ChunkTurn(query, file, position, allowance);
      var o := ChunkScan(query, file, position, allowance);
      if o.stopReason == ScanStopReason.ResultLimit && position.byteOffset + o.bytesScanned < |file| {
        var next := o.nextPosition.value;
        ChunksAreTheFile(query, file, next, allowance);
        Regroup(MatchesBefore(query, file, position), o.results, ScanChunks(query, file, next, allowance).matches);
      }
    }
  }

  /** A request without any limit that could be reached. */
  function Unlimited(query: LineQuery, file: seq<Byte>): ScanRequest {
    var lines := |file| + 1;
    ScanRequest(query.keyword, query.caseSensitive,
                ScanLimits(lines, lines, query.maxLineBytes, lines * (3 * query.maxLineBytes), 64 * 1024), START)
  }

  lemma {:induction false} FewerMatchesThanBytes(query: LineQuery, s: seq<Byte>, position: ScanPosition)
    requires query.keyword != []
    ensures |AllMatches(query, s, position)| <= |s| && |TerminatedMatches(query, s, position)| <= |s|
    decreases |s|
  {
    hide LineMatch, AllMatches, TerminatedMatches, NewlineIndex, NewlineCount;
    var n := NewlineIndex(s);
    if s == [] {
      NoBytes(query, position);
    } else if n == |s| {
      NoLineFeed(query, s, position);
    } else {
      FirstLineMatches(query, s, n, position);
      FewerMatchesThanBytes(query, s[n + 1..], NextLine(position, n));
    }
  }

  lemma NoBytes(query: LineQuery, position: ScanPosition)
    ensures AllMatches(query, [], position) == [] && TerminatedMatches(query, [], position) == []
  {
  }

  /** An unlimited scan sees every line. */
  lemma UnlimitedSeesAll(query: LineQuery, file: seq<Byte>)
    requires query.keyword != [] && query.maxLineBytes > 0
    ensures var o := ScanWithin(Unlimited(query, file), file, |file| + 1);
            && o.results == AllMatches(query, file, START)
            && o.bytesScanned == |file| && o.linesScanned == LineCount(file)
  {
    hide AllMatches, TerminatedMatches, LineCount, NewlineCount, ScanWithin, Ended, Stopped, Unlimited, ContentFits,
         Room;
    var request, budget := Unlimited(query, file), |file| + 1;
    NothingReached(query, file);
    UnlimitedMeans(request, file, budget);
    var o := ScanWithin(request, file, budget);
    if !Ended(request, file, budget, NOTHING, o) {
      NotStopped(query, file, o, o.bytesScanned);
      assert false;
    }
    EndedMeans(request, file, budget, START, o);
  }

  lemma UnlimitedMeans(request: ScanRequest, file: seq<Byte>, budget: nat)
    requires ContentFits(request.limits) && Room(request.limits, NOTHING)
    ensures Meaning(request, file, budget, NOTHING, ScanWithin(request, file, budget))
  {
    hide Ended, Stopped, ScanFrom, ContentFits, Room;
    ScanMeaning(request, file, budget, NOTHING);
  }

  lemma EndedMeans(request: ScanRequest, file: seq<Byte>, budget: nat, position: ScanPosition, o: ScanOutcome)
    requires Ended(request, file, budget, NOTHING, o) && request.startPosition == position
    ensures o.results == AllMatches(request.Query(), file, position) && o.bytesScanned == |file|
            && o.linesScanned == LineCount(file)
  {
    hide AllMatches, LineCount, TerminatedMatches, NewlineCount;
    assert PositionAfter(position, NOTHING) == position;
    EmptyFront(NOTHING.results, AllMatches(request.Query(), file, position));
  }

  lemma EmptyFront<T>(a: seq<T>, b: seq<T>)
    requires a == []
    ensures a + b == b
  {
  }

  lemma NothingReached(query: LineQuery, file: seq<Byte>)
    requires query.maxLineBytes > 0
    ensures ContentFits(Unlimited(query, file).limits) && Room(Unlimited(query, file).limits, NOTHING)
    ensures Unlimited(query, file).Query() == query && Unlimited(query, file).startPosition == START
  {
  }

  /** There are too few matches and too few bytes to stop an unlimited scan. */
  lemma NotStopped(query: LineQuery, file: seq<Byte>, o: ScanOutcome, k: nat)
    requires query.keyword != [] && query.maxLineBytes > 0
    ensures !Stopped(Unlimited(query, file), file, |file| + 1, NOTHING, o, k)
  {
    hide TerminatedMatches, NewlineCount;
    if k <= |file| {
      FewerMatchesThanBytes(query, file[..k], PositionAfter(START, NOTHING));
    }
  }

  /**
   Chunked scanning equals one-shot scanning, for every file within the byte budget whose end the last chunk can
   see.
   */
  lemma ChunksAreOneScan(query: LineQuery, file: seq<Byte>, allowance: nat)
    requires query.keyword != [] && Standing(query, file, START, allowance)
    requires |file| <= allowance && !EndUnseen(query, file, ChunkResultLimit(query.maxLineBytes))
    ensures var chunks, whole := ScanChunks(query, file, START, allowance),
            ScanWithin(Unlimited(query, file), file, |file| + 1);
            && chunks.matches == whole.results && chunks.bytesScanned == whole.bytesScanned
               && chunks.linesScanned == whole.linesScanned
  {
    hide AllMatches, TerminatedMatches, NewlineCount, LineCount, ScanWithin, ScanChunks, EndUnseen, Reached;
    ChunksAreTheFile(query, file, START, allowance);
    UnlimitedSeesAll(query, file);
    NothingBeforeStart(query, file[..0]);
    assert [] + ScanChunks(query, file, START, allowance).matches == ScanChunks(query, file, START, allowance).matches;
  }
}
