/**
 The chunk loop of one candidate: why every chunk either finishes the file, exhausts the page's byte budget,
 or leaves a later line boundary to resume at.
 */
module CandidateScan {
  import opened Wrappers
  import opened Bytes
  import opened ScanSpec
  import opened ChunkedScan
  import opened FileChunks
  import PageSpec

  /** The loop stands at `position`, with `allowance` bytes of the page's budget for this file. */
  ghost predicate Standing(query: LineQuery, file: seq<Byte>, position: ScanPosition, allowance: nat) {
    && 0 < query.maxLineBytes <= MAX_LINE_PREVIEW_BYTES
    && allowance <= MAX_SCAN_BYTES
    && Reached(file, position) && position.byteOffset <= allowance
    && (position.byteOffset > 0 && |file| == MAX_SCAN_BYTES ==>
          |MatchesBefore(query, file, position)| >= PageSpec.ChunkResultLimit(query.maxLineBytes))
  }

  /** How much of the file the next chunk reads. */
  function ChunkLength(file: seq<Byte>, position: ScanPosition, allowance: nat): nat
    requires position.byteOffset <= |file| && position.byteOffset <= allowance
  {
    Min(|file| - position.byteOffset, allowance - position.byteOffset)
  }

  function ChunkBudget(file: seq<Byte>, position: ScanPosition, allowance: nat): nat
    requires position.byteOffset <= |file| && position.byteOffset <= allowance
  {
    var length := ChunkLength(file, position, allowance);
    if length == |file| - position.byteOffset then Min(length + 1, MAX_SCAN_BYTES) else length
  }

  function ChunkOf(file: seq<Byte>, position: ScanPosition, allowance: nat): seq<Byte>
    requires position.byteOffset <= |file| && position.byteOffset <= allowance
  {
    file[position.byteOffset..position.byteOffset + ChunkLength(file, position, allowance)]
  }

  /** The outcome of scanning the next chunk without interruption. */
  function ChunkScan(query: LineQuery, file: seq<Byte>, position: ScanPosition, allowance: nat): ScanOutcome
    requires position.byteOffset <= |file| && position.byteOffset <= allowance
  {
    var budget := ChunkBudget(file, position, allowance);
    ScanWithin(ChunkRequest(query, position, budget), ChunkOf(file, position, allowance), budget)
  }

  /** With this chunk the loop has scanned what `ScanFile` says. */
  ghost predicate Finished(query: LineQuery, file: seq<Byte>, position: ScanPosition, allowance: nat, o: ScanOutcome)
    requires position.byteOffset <= |file|
  {
    var scan := PageSpec.ScanFile(query, file, allowance);
    && MatchesBefore(query, file, position) + o.results == scan.matches
    && position.byteOffset + o.bytesScanned == scan.bytesScanned
    && NewlineCount(file[..position.byteOffset]) + o.linesScanned == scan.linesScanned
  }

  /** The loop goes on at `next`. */
  ghost predicate GoesOn(query: LineQuery, file: seq<Byte>, position: ScanPosition, allowance: nat, o: ScanOutcome,
                         next: ScanPosition)
    requires position.byteOffset <= |file|
  {
    && Standing(query, file, next, allowance)
    && next.byteOffset == position.byteOffset + o.bytesScanned > position.byteOffset
    && next.lineNumber >= position.lineNumber
    && MatchesBefore(query, file, next) == MatchesBefore(query, file, position) + o.results
    && NewlineCount(file[..next.byteOffset]) == NewlineCount(file[..position.byteOffset]) + o.linesScanned
  }

  lemma ChunkMeans(query: LineQuery, file: seq<Byte>, position: ScanPosition, allowance: nat)
    requires Standing(query, file, position, allowance)
    ensures var budget := ChunkBudget(file, position, allowance);
            Meaning(ChunkRequest(query, position, budget), ChunkOf(file, position, allowance), budget, NOTHING,
                    ChunkScan(query, file, position, allowance))
  {
    hide ScanWithin, Meaning;
    var budget := ChunkBudget(file, position, allowance);
    ChunkMeaning(query, file, position, ChunkLength(file, position, allowance), budget, budget);
  }

  lemma TerminatedGrow(query: LineQuery, file: seq<Byte>, position: ScanPosition)
    requires Reached(file, position)
    ensures |TerminatedMatches(query, file, START)| >= |MatchesBefore(query, file, position)|
  {
    hide AllMatches, TerminatedMatches, NewlineCount, LineCount;
    ChunkExtends(query, file, position, |file| - position.byteOffset);
    assert file[..|file|] == file;
  }

  /** The chunk saw the end of the snapshot. */
  lemma ChunkEnded(query: LineQuery, file: seq<Byte>, position: ScanPosition, allowance: nat, o: ScanOutcome)
    requires Standing(query, file, position, allowance)
    requires var budget := ChunkBudget(file, position, allowance);
             Ended(ChunkRequest(query, position, budget), ChunkOf(file, position, allowance), budget, NOTHING, o)
    ensures o.stopReason == Complete || o.stopReason == ResultLimit
    ensures position.byteOffset + o.bytesScanned == |file| <= allowance
    ensures Finished(query, file, position, allowance, o)
  {
    hide AllMatches, TerminatedMatches, NewlineCount, LineCount, Reached;
    var k := |file| - position.byteOffset;
    assert ChunkLength(file, position, allowance) == k;
    ChunkExtends(query, file, position, k);
    TerminatedGrow(query, file, position);
    assert file[..position.byteOffset + k] == file;
    assert PositionAfter(position, NOTHING) == position;
    assert NOTHING.results + o.results == o.results;
    assert o.results == AllMatches(query, ChunkOf(file, position, allowance), position);
    assert !PageSpec.EndUnseen(query, file, PageSpec.ChunkResultLimit(query.maxLineBytes));
  }

  lemma StoppedChunk(query: LineQuery, file: seq<Byte>, position: ScanPosition, allowance: nat, o: ScanOutcome)
    requires Standing(query, file, position, allowance)
    requires var budget := ChunkBudget(file, position, allowance);
             Stopped(ChunkRequest(query, position, budget), ChunkOf(file, position, allowance), budget, NOTHING, o,
                     o.bytesScanned)
    ensures var at := position.byteOffset + o.bytesScanned;
            && at <= |file| && at <= allowance
            && TerminatedMatches(query, file[..at], START) == MatchesBefore(query, file, position) + o.results
            && NewlineCount(file[..at]) == NewlineCount(file[..position.byteOffset]) + o.linesScanned
            && ChunkOf(file, position, allowance)[..o.bytesScanned] == file[position.byteOffset..at]
            && (WholeLines(file[..at]) <==> WholeLines(file[position.byteOffset..at]))
            && (WholeLines(file[..at]) ==> Reached(file, Behind(position, file[position.byteOffset..at])))
  {
    hide AllMatches, TerminatedMatches, NewlineCount, LineCount, Reached;
    var chunk, k := ChunkOf(file, position, allowance), o.bytesScanned;
    assert chunk[..k] == file[position.byteOffset..position.byteOffset + k];
    ChunkExtends(query, file, position, k);
    assert PositionAfter(position, NOTHING) == position;
    assert o.results == TerminatedMatches(query, chunk[..k], position);
  }

  /** The chunk returned as many results as it may. */
  lemma ChunkFull(query: LineQuery, file: seq<Byte>, position: ScanPosition, allowance: nat, o: ScanOutcome)
    requires Standing(query, file, position, allowance) && o.stopReason == ResultLimit
    requires var budget := ChunkBudget(file, position, allowance);
             Stopped(ChunkRequest(query, position, budget), ChunkOf(file, position, allowance), budget, NOTHING, o,
                     o.bytesScanned)
    ensures position.byteOffset + o.bytesScanned == |file| ==>
              |file| <= allowance && Finished(query, file, position, allowance, o)
    ensures position.byteOffset + o.bytesScanned < |file| ==>
              o.nextPosition.Some? && GoesOn(query, file, position, allowance, o, o.nextPosition.value)
  {
    hide AllMatches, TerminatedMatches, NewlineCount, LineCount;
    StoppedChunk(query, file, position, allowance, o);
    var at := position.byteOffset + o.bytesScanned;
    assert PositionAfter(position, NOTHING) == position;
    if at == |file| {
      assert file[..at] == file;
      AllTerminated(query, file, START);
    }
  }

  /** The chunk used up its byte budget. */
  lemma ChunkExhausted(query: LineQuery, file: seq<Byte>, position: ScanPosition, allowance: nat, o: ScanOutcome)
    requires Standing(query, file, position, allowance) && o.stopReason == ScanByteLimit
    requires var budget := ChunkBudget(file, position, allowance);
             Stopped(ChunkRequest(query, position, budget), ChunkOf(file, position, allowance), budget, NOTHING, o,
                     o.bytesScanned)
    ensures Finished(query, file, position, allowance, o)
    ensures position.byteOffset + o.bytesScanned == |file| ==> |file| <= allowance
    ensures position.byteOffset + o.bytesScanned < |file| ==> position.byteOffset + o.bytesScanned == allowance
  {
    hide AllMatches, TerminatedMatches, NewlineCount, LineCount, Reached;
    StoppedChunk(query, file, position, allowance, o);
    var at := position.byteOffset + o.bytesScanned;
    if at == |file| {
      assert file[..at] == file;
      assert position.byteOffset == 0 && |file| == MAX_SCAN_BYTES;
      assert MatchesBefore(query, file, position) == [] by { NothingBeforeStart(query, file[..0]); }
      assert PageSpec.EndUnseen(query, file, PageSpec.ChunkResultLimit(query.maxLineBytes));
    }
  }

  lemma NothingBeforeStart(query: LineQuery, s: seq<Byte>)
    requires s == []
    ensures TerminatedMatches(query, s, START) == [] && NewlineCount(s) == 0
  {
  }

  /**
   One turn of the chunk loop: no scan position is ever unsafe, and without enough room for the rest of the
   file the page's byte budget is used up exactly.
   */
  lemma ChunkTurn(query: LineQuery, file: seq<Byte>, position: ScanPosition, allowance: nat)
    requires Standing(query, file, position, allowance)
    ensures var o, at := ChunkScan(query, file, position, allowance),
            position.byteOffset + ChunkScan(query, file, position, allowance).bytesScanned;
            && at <= |file| && at <= allowance
            && match o.stopReason
               case Complete => |file| <= allowance && Finished(query, file, position, allowance, o)
               case ResultLimit =>
                 if at == |file| then |file| <= allowance && Finished(query, file, position, allowance, o)
                 else o.nextPosition.Some? && GoesOn(query, file, position, allowance, o, o.nextPosition.value)
               case ScanByteLimit =>
                 && Finished(query, file, position, allowance, o)
                 && if at == |file| then |file| <= allowance else at == allowance
               case _ => false
  {
    StandingInside(query, file, position, allowance);
    hide ScanWithin, Finished, GoesOn, Standing, ChunkScan, ChunkOf, Ended, Stopped, Reached, ChunkRequest, ChunkLength;
    var o := ChunkScan(query, file, position, allowance);
    var budget := ChunkBudget(file, position, allowance);
    var request, chunk := ChunkRequest(query, position, budget), ChunkOf(file, position, allowance);
    ChunkMeans(query, file, position, allowance);
    if Ended(request, chunk, budget, NOTHING, o) {
      ChunkEnded(query, file, position, allowance, o);
    } else {
      StoppedInside(query, file, position, allowance, o);
      if o.stopReason == ResultLimit {
        ChunkFull(query, file, position, allowance, o);
      } else {
        ChunkExhausted(query, file, position, allowance, o);
      }
    }
  }

  lemma StandingInside(query: LineQuery, file: seq<Byte>, position: ScanPosition, allowance: nat)
    requires Standing(query, file, position, allowance)
    ensures position.byteOffset <= |file| && position.byteOffset <= allowance
  {
  }

  lemma StoppedInside(query: LineQuery, file: seq<Byte>, position: ScanPosition, allowance: nat, o: ScanOutcome)
    requires position.byteOffset <= |file| && position.byteOffset <= allowance
    requires var budget := ChunkBudget(file, position, allowance);
             Stopped(ChunkRequest(query, position, budget), ChunkOf(file, position, allowance), budget, NOTHING, o,
                     o.bytesScanned)
    ensures o.stopReason == ResultLimit || o.stopReason == ScanByteLimit
    ensures position.byteOffset + o.bytesScanned <= |file| && position.byteOffset + o.bytesScanned <= allowance
  {
    hide TerminatedMatches, NewlineCount;
  }
}
