/**
 Scanning one snapshot in chunks: each chunk begins where the last one stopped, at a line boundary, and the
 chunks together report what one scan of the whole snapshot reports.
 */
module FileChunks {
  import opened Bytes
  import opened ScanSpec
  import opened ChunkedScan
  import MatchFacts
  import PageFacts
  import PageSpec

  /** The chunk limits used for one file of the page. */
  function ChunkRequest(query: LineQuery, position: ScanPosition, scanBudget: nat): ScanRequest {
    ScanRequest(query.keyword, query.caseSensitive,
                ScanLimits(scanBudget, PageSpec.ChunkResultLimit(query.maxLineBytes), query.maxLineBytes,
                           MAX_RETURNED_CONTENT_BYTES, 64 * 1024),
                position)
  }

  /** With that many results a chunk's decoded content never reaches the content limit. */
  lemma ChunkContentFits(query: LineQuery, position: ScanPosition, scanBudget: nat)
    requires 0 < query.maxLineBytes <= MAX_LINE_PREVIEW_BYTES
    ensures ContentFits(ChunkRequest(query, position, scanBudget).limits)
    ensures 0 < PageSpec.ChunkResultLimit(query.maxLineBytes) <= MAX_SCAN_RESULTS
  {
    var width := 3 * query.maxLineBytes;
    var quotient := MAX_RETURNED_CONTENT_BYTES / width;
    assert quotient >= 1 && quotient * width <= MAX_RETURNED_CONTENT_BYTES by {
      QuotientFits(MAX_RETURNED_CONTENT_BYTES, width);
    }
    var count := PageSpec.ChunkResultLimit(query.maxLineBytes);
    assert 0 < count <= quotient;
    if count < quotient {
      FewerFit(count, quotient, width);
    }
  }

  /** The chunk result limit is the largest within the scan's own bound whose decoded previews fit the content limit. */
  lemma ChunkLimitIsLargest(maxLineBytes: nat)
    requires 0 < maxLineBytes <= MAX_LINE_PREVIEW_BYTES
    ensures var count := PageSpec.ChunkResultLimit(maxLineBytes);
            && count <= 200 && count * (3 * maxLineBytes) <= 16 * 1024 * 1024
            && (count < 200 ==> (count + 1) * (3 * maxLineBytes) > 16 * 1024 * 1024)
  {
    var width := 3 * maxLineBytes;
    var count, quotient := PageSpec.ChunkResultLimit(maxLineBytes), MAX_RETURNED_CONTENT_BYTES / width;
    QuotientFits(MAX_RETURNED_CONTENT_BYTES, width);
    if count < quotient {
      FewerFit(count, quotient, width);
    }
    QuotientIsLargest(MAX_RETURNED_CONTENT_BYTES, width);
  }

  lemma QuotientIsLargest(total: nat, width: nat)
    requires 0 < width
    ensures (total / width + 1) * width > total
  {
    assert total == (total / width) * width + total % width;
  }

  lemma QuotientFits(total: nat, width: nat)
    requires 0 < width <= total
    ensures total / width >= 1 && (total / width) * width <= total
  {
    assert total == (total / width) * width + total % width;
  }

  /** A scan position reached in `file`. */
  ghost predicate Reached(file: seq<Byte>, position: ScanPosition) {
    && position.byteOffset <= |file|
    && WholeLines(file[..position.byteOffset])
    && position == Behind(START, file[..position.byteOffset])
  }

  lemma ReachedStart(file: seq<Byte>)
    ensures Reached(file, START)
  {
  }

  lemma {:induction false} NewlineCountBound(s: seq<Byte>)
    ensures NewlineCount(s) <= |s| && NewlineCount(s) <= LineCount(s) <= |s|
  {
    if NewlineIndex(s) == |s| {
    } else {
      NewlineCountBound(s[NewlineIndex(s) + 1..]);
    }
  }

  /** The matches of the beginning of a file and those of a chunk behind it are the matches of both. */
  lemma ChunkExtends(query: LineQuery, file: seq<Byte>, position: ScanPosition, k: nat)
    requires Reached(file, position) && position.byteOffset + k <= |file|
    ensures var p := position.byteOffset;
            var chunk := file[p..p + k];
            && TerminatedMatches(query, file[..p + k], START)
               == TerminatedMatches(query, file[..p], START) + TerminatedMatches(query, chunk, position)
            && AllMatches(query, file[..p + k], START)
               == TerminatedMatches(query, file[..p], START) + AllMatches(query, chunk, position)
            && NewlineCount(file[..p + k]) == NewlineCount(file[..p]) + NewlineCount(chunk)
            && LineCount(file[..p + k]) == NewlineCount(file[..p]) + LineCount(chunk)
            && (WholeLines(file[..p + k]) <==> WholeLines(chunk))
            && (WholeLines(chunk) ==> Reached(file, Behind(position, chunk)))
  {
    hide AllMatches, TerminatedMatches, NewlineCount, LineCount;
    var p := position.byteOffset;
    var chunk := file[p..p + k];
    assert file[..p + k] == file[..p] + chunk;
    MatchesSplit(query, file[..p], chunk, START);
    TerminatedSplit(query, file[..p], chunk, START);
    CountsSplit(file[..p], chunk);
  }

  /** What a page has reported for a file when it stands at `position`. */
  function MatchesBefore(query: LineQuery, file: seq<Byte>, position: ScanPosition): seq<ScanMatch>
    requires position.byteOffset <= |file|
  {
    TerminatedMatches(query, file[..position.byteOffset], START)
  }

  lemma ChunkMeaning(query: LineQuery, file: seq<Byte>, position: ScanPosition, length: nat, budget: nat, read: nat)
    requires 0 < query.maxLineBytes <= MAX_LINE_PREVIEW_BYTES
    requires position.byteOffset + length <= |file|
    ensures var request, chunk := ChunkRequest(query, position, budget),
            file[position.byteOffset..position.byteOffset + length];
            Meaning(request, chunk, read, NOTHING, ScanWithin(request, chunk, read))
  {
    ChunkContentFits(query, position, budget);
    ScanMeaning(ChunkRequest(query, position, budget), file[position.byteOffset..position.byteOffset + length], read,
                NOTHING);
  }

  /** However far a chunk was read, its matches carry on where the file's matches stood. */
  lemma ChunkResults(query: LineQuery, file: seq<Byte>, position: ScanPosition, length: nat, budget: nat, read: nat)
    requires 0 < query.maxLineBytes <= MAX_LINE_PREVIEW_BYTES
    requires Reached(file, position) && position.byteOffset + length <= |file|
    ensures var request, chunk := ChunkRequest(query, position, budget),
            file[position.byteOffset..position.byteOffset + length];
            var o := ScanWithin(request, chunk, read);
            && o.bytesScanned <= length
            && var upTo := file[..position.byteOffset + o.bytesScanned];
               || MatchesBefore(query, file, position) + o.results == TerminatedMatches(query, upTo, START)
               || MatchesBefore(query, file, position) + o.results == AllMatches(query, upTo, START)
  {
    hide AllMatches, TerminatedMatches, NewlineCount, LineCount, ScanWithin, Reached;
    var request, chunk := ChunkRequest(query, position, budget),
        file[position.byteOffset..position.byteOffset + length];
    var o := ScanWithin(request, chunk, read);
    ChunkMeaning(query, file, position, length, budget, read);
    assert PositionAfter(position, NOTHING) == position;
    var k := o.bytesScanned;
    ChunkExtends(query, file, position, k);
    assert chunk[..k] == file[position.byteOffset..position.byteOffset + k];
    if Ended(request, chunk, read, NOTHING, o) {
      assert chunk[..k] == chunk;
      assert o.results == AllMatches(query, chunk[..k], position);
    } else {
      assert o.results == TerminatedMatches(query, chunk[..k], position);
    }
  }

  lemma ChunkCarriesOn(query: LineQuery, file: seq<Byte>, position: ScanPosition, length: nat, budget: nat, read: nat)
    requires query.keyword != [] && 0 < query.maxLineBytes <= MAX_LINE_PREVIEW_BYTES
    requires Reached(file, position) && position.byteOffset + length <= |file|
    ensures var request, chunk := ChunkRequest(query, position, budget),
            file[position.byteOffset..position.byteOffset + length];
            var o := ScanWithin(request, chunk, read);
            && PageFacts.LinesIncrease(MatchesBefore(query, file, position) + o.results)
            && MatchFacts.AllLocated(query, file, o.results)
  {
    hide AllMatches, TerminatedMatches, NewlineCount, LineCount, ScanWithin, Reached, ChunkRequest;
    hide PageFacts.LinesIncrease, MatchFacts.AllLocated, MatchesBefore;
    var request, chunk := ChunkRequest(query, position, budget),
        file[position.byteOffset..position.byteOffset + length];
    var o := ScanWithin(request, chunk, read);
    ChunkResults(query, file, position, length, budget, read);
    var upTo := file[..position.byteOffset + o.bytesScanned];
    PageFacts.MatchLinesIncrease(query, upTo, START);
    MatchFacts.FileMatchesLocated(query, upTo);
    LocatedSuffix(query, upTo, file, MatchesBefore(query, file, position), o.results);
  }

  lemma LocatedSuffix(query: LineQuery, prefix: seq<Byte>, file: seq<Byte>, a: seq<ScanMatch>, b: seq<ScanMatch>)
    requires prefix <= file
    ensures MatchFacts.AllLocated(query, prefix, a + b) ==> MatchFacts.AllLocated(query, file, b)
  {
    if MatchFacts.AllLocated(query, prefix, a + b) {
      forall i | 0 <= i < |b|
        ensures MatchFacts.Located(query, file, b[i])
      {
        assert (a + b)[|a| + i] == b[i];
        MatchFacts.LocatedInLonger(query, prefix, file, b[i]);
      }
    }
  }
}
