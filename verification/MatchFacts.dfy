/**
 Every reported match is where it says: the keyword stands at its byte offset, its line begins at its line
 start and has its line number; and every occurrence of the keyword is in a reported line.
 */
module MatchFacts {
  import opened Wrappers
  import opened Bytes
  import opened ScanSpec
  import opened ChunkedScan
  import Utf8

  /** The reported positions are right for `file`, and the match is the first of its line. */
  ghost predicate Located(query: LineQuery, file: seq<Byte>, m: ScanMatch) {
    && m.lineStartOffset <= m.matchByteOffset && m.matchByteOffset + |query.keyword| <= |file|
    && OccursAt(file, query.keyword, query.caseSensitive, m.matchByteOffset)
    && WholeLines(file[..m.lineStartOffset])
    && m.lineNumber == 1 + NewlineCount(file[..m.lineStartOffset])
    && LF !in file[m.lineStartOffset..m.matchByteOffset + |query.keyword|]
    && forall j :: m.lineStartOffset <= j < m.matchByteOffset ==> !OccursAt(file, query.keyword, query.caseSensitive, j)
  }

  ghost predicate AllLocated(query: LineQuery, file: seq<Byte>, found: seq<ScanMatch>) {
    forall i :: 0 <= i < |found| ==> Located(query, file, found[i])
  }

  lemma OccursShifted(before: seq<Byte>, line: seq<Byte>, after: seq<Byte>, keyword: seq<Byte>, caseSensitive: bool,
                      i: nat)
    requires i + |keyword| <= |line|
    ensures OccursAt(before + line + after, keyword, caseSensitive, |before| + i)
            <==> OccursAt(line, keyword, caseSensitive, i)
  {
    assert (before + line + after)[|before| + i..|before| + i + |keyword|] == line[i..i + |keyword|];
  }

  /** The match of one line, seen in the whole file. */
  lemma LineLocated(query: LineQuery, before: seq<Byte>, line: seq<Byte>, after: seq<Byte>)
    requires query.keyword != [] && WholeLines(before) && LF !in line
    requires LineMatch(query, line, Behind(START, before)).Some?
    ensures Located(query, before + line + after, LineMatch(query, line, Behind(START, before)).value)
  {
    hide PreviewOf, StripCarriageReturn, PreviewStart, NewlineCount, FindFolded, OccursAt;
    var file := before + line + after;
    FindFoldedIsLeftmost(line, query.keyword, query.caseSensitive);
    var at := FindFolded(line, query.keyword, query.caseSensitive).value;
    var m := LineMatch(query, line, Behind(START, before)).value;
    MatchOffsets(query, line, at, Behind(START, before));
    OccursShifted(before, line, after, query.keyword, query.caseSensitive, at);
    assert file[..|before|] == before;
    assert file[|before|..|before| + at + |query.keyword|] == line[..at + |query.keyword|];
    forall j | m.lineStartOffset <= j < m.matchByteOffset
      ensures !OccursAt(file, query.keyword, query.caseSensitive, j)
    {
      OccursShifted(before, line, after, query.keyword, query.caseSensitive, j - |before|);
    }
  }

  lemma MatchOffsets(query: LineQuery, line: seq<Byte>, at: nat, position: ScanPosition)
    requires at <= |line|
    ensures var m := MatchAt(query, line, at, position);
            && m.lineNumber == position.lineNumber && m.lineStartOffset == position.byteOffset
            && m.matchByteOffset == position.byteOffset + at
  {
  }

  lemma LocatedCons(query: LineQuery, file: seq<Byte>, found: Option<ScanMatch>, rest: seq<ScanMatch>)
    requires found.Some? ==> Located(query, file, found.value)
    requires AllLocated(query, file, rest)
    ensures AllLocated(query, file, Listed(found) + rest)
  {
    hide Located;
  }

  lemma {:induction false} MatchesLocated(query: LineQuery, before: seq<Byte>, s: seq<Byte>)
    requires query.keyword != [] && WholeLines(before)
    ensures AllLocated(query, before + s, AllMatches(query, s, Behind(START, before)))
    ensures AllLocated(query, before + s, TerminatedMatches(query, s, Behind(START, before)))
    decreases |s|
  {
    hide Located, LineMatch, AllMatches, TerminatedMatches, NewlineIndex, NewlineCount;
    var n, position, file := NewlineIndex(s), Behind(START, before), before + s;
    var found := LineMatch(query, s[..n], position);
    if found.Some? {
      LineLocated(query, before, s[..n], s[n..]);
      assert before + s[..n] + s[n..] == file;
    }
    if n == |s| {
      UnterminatedLocated(query, file, s, position);
    } else {
      var longer := before + s[..n + 1];
      BehindLine(before, s, n);
      assert longer + s[n + 1..] == file;
      MatchesLocated(query, longer, s[n + 1..]);
      FirstLineMatches(query, s, n, position);
      LocatedCons(query, file, found, AllMatches(query, s[n + 1..], NextLine(position, n)));
      LocatedCons(query, file, found, TerminatedMatches(query, s[n + 1..], NextLine(position, n)));
    }
  }

  lemma UnterminatedLocated(query: LineQuery, file: seq<Byte>, s: seq<Byte>, position: ScanPosition)
    requires NewlineIndex(s) == |s|
    requires LineMatch(query, s[..|s|], position).Some? ==>
               Located(query, file, LineMatch(query, s[..|s|], position).value)
    ensures AllLocated(query, file, AllMatches(query, s, position))
    ensures AllLocated(query, file, TerminatedMatches(query, s, position))
  {
    hide Located, LineMatch;
    NoLineFeed(query, s, position);
    assert s[..|s|] == s;
  }

  lemma BehindLine(before: seq<Byte>, s: seq<Byte>, n: nat)
    requires WholeLines(before) && n == NewlineIndex(s) < |s|
    ensures WholeLines(before + s[..n + 1])
    ensures Behind(START, before + s[..n + 1]) == NextLine(Behind(START, before), n)
  {
    hide NewlineCount, NewlineIndex, WholeLines, Behind, NextLine;
    assert s[..n + 1][..n] == s[..n];
    BehindFrom(START, before, s[..n + 1], n);
  }

  lemma BehindFrom(position: ScanPosition, before: seq<Byte>, line: seq<Byte>, n: nat)
    requires WholeLines(before) && |line| == n + 1 && line[n] == LF && LF !in line[..n]
    ensures WholeLines(before + line)
    ensures Behind(position, before + line) == NextLine(Behind(position, before), n)
  {
    hide NewlineCount, NewlineIndex;
    CountsSplit(before, line);
    OneLine(line, n);
  }

  lemma OneLine(line: seq<Byte>, n: nat)
    requires |line| == n + 1 && line[n] == LF && LF !in line[..n]
    ensures NewlineCount(line) == 1
  {
    assert NewlineIndex(line) == n by {
      assert forall i :: 0 <= i < n ==> line[i] == line[..n][i];
    }
    assert |line[n + 1..]| == 0;
  }

  /** Everything reported for a file is located in it. */
  lemma FileMatchesLocated(query: LineQuery, file: seq<Byte>)
    requires query.keyword != []
    ensures AllLocated(query, file, AllMatches(query, file, START))
    ensures AllLocated(query, file, TerminatedMatches(query, file, START))
  {
    hide Located, AllMatches, TerminatedMatches;
    MatchesLocated(query, [], file);
    assert [] + file == file;
    assert Behind(START, []) == START;
  }

  /** What is located in the beginning of a file is located in the file. */
  lemma LocatedInLonger(query: LineQuery, file: seq<Byte>, longer: seq<Byte>, m: ScanMatch)
    requires file <= longer && Located(query, file, m)
    ensures Located(query, longer, m)
  {
    hide NewlineCount, OccursAt;
    assert longer[..m.lineStartOffset] == file[..m.lineStartOffset];
    assert longer[m.lineStartOffset..m.matchByteOffset + |query.keyword|]
        == file[m.lineStartOffset..m.matchByteOffset + |query.keyword|];
    assert longer == [] + file + longer[|file|..];
    OccursShifted([], file, longer[|file|..], query.keyword, query.caseSensitive, m.matchByteOffset);
    forall j | m.lineStartOffset <= j < m.matchByteOffset
      ensures !OccursAt(longer, query.keyword, query.caseSensitive, j)
    {
      OccursShifted([], file, longer[|file|..], query.keyword, query.caseSensitive, j);
    }
  }

  // ---------- what is reported of a line ----------

  /** The line that begins at `start`, without its line feed. */
  function LineFrom(file: seq<Byte>, start: nat): seq<Byte>
    requires start <= |file|
  {
    var rest := From(file, start);
    rest[..NewlineIndex(rest)]
  }

  /** The match is the rendering of its line around the reported offset. */
  predicate Renders(query: LineQuery, file: seq<Byte>, m: ScanMatch) {
    && m.lineStartOffset <= m.matchByteOffset && m.lineStartOffset <= |file|
    && var line, at := LineFrom(file, m.lineStartOffset), m.matchByteOffset - m.lineStartOffset;
    && at + |query.keyword| <= |line|
    && m == MatchAt(query, line, at, ScanPosition(m.lineStartOffset, m.lineNumber))
  }

  /** A line feed stands behind the line of the match. */
  predicate Ended(file: seq<Byte>, m: ScanMatch) {
    m.lineStartOffset + m.originalLineBytes < |file|
  }

  ghost predicate AllRendered(query: LineQuery, file: seq<Byte>, found: seq<ScanMatch>) {
    forall i :: 0 <= i < |found| ==> Renders(query, file, found[i])
  }

  ghost predicate AllEnded(file: seq<Byte>, found: seq<ScanMatch>) {
    forall i :: 0 <= i < |found| ==> Ended(file, found[i])
  }

  lemma LineIsFrom(before: seq<Byte>, line: seq<Byte>, after: seq<Byte>)
    requires LF !in line && (after == [] || after[0] == LF)
    ensures LineFrom(before + line + after, |before|) == line
  {
    hide NewlineIndex;
    var rest := From(before + line + after, |before|);
    assert rest == line + after;
    assert forall i :: 0 <= i < |line| ==> rest[i] == line[i];
    assert after != [] ==> rest[|line|] == after[0];
  }

  /** The match of one line, seen in the whole file. */
  lemma LineRendered(query: LineQuery, before: seq<Byte>, line: seq<Byte>, after: seq<Byte>)
    requires LF !in line && (after == [] || after[0] == LF)
    requires LineMatch(query, line, Behind(START, before)).Some?
    ensures var m := LineMatch(query, line, Behind(START, before)).value;
            Renders(query, before + line + after, m) && m.lineStartOffset + m.originalLineBytes == |before| + |line|
  {
    hide PreviewOf, StripCarriageReturn, PreviewStart, NewlineCount, FindFolded, LineFrom;
    LineIsFrom(before, line, after);
    MatchOffsets(query, line, FindFolded(line, query.keyword, query.caseSensitive).value, Behind(START, before));
  }

  lemma RenderedCons(query: LineQuery, file: seq<Byte>, found: Option<ScanMatch>, rest: seq<ScanMatch>)
    requires found.Some? ==> Renders(query, file, found.value)
    requires AllRendered(query, file, rest)
    ensures AllRendered(query, file, Listed(found) + rest)
    ensures (found.Some? ==> Ended(file, found.value)) && AllEnded(file, rest) ==> AllEnded(file, Listed(found) + rest)
  {
    hide Renders, Ended;
  }

  lemma {:induction false} MatchesRendered(query: LineQuery, before: seq<Byte>, s: seq<Byte>)
    requires WholeLines(before)
    ensures AllRendered(query, before + s, AllMatches(query, s, Behind(START, before)))
    ensures var found := TerminatedMatches(query, s, Behind(START, before));
            AllRendered(query, before + s, found) && AllEnded(before + s, found)
    decreases |s|
  {
    hide Renders, Ended, LineMatch, AllMatches, TerminatedMatches, NewlineIndex, NewlineCount;
    var n, position, file := NewlineIndex(s), Behind(START, before), before + s;
    var found := LineMatch(query, s[..n], position);
    assert before + s[..n] + s[n..] == file;
    if found.Some? {
      LineRendered(query, before, s[..n], s[n..]);
    }
    if n == |s| {
      UnterminatedRendered(query, file, s, position);
    } else {
      var longer := before + s[..n + 1];
      BehindLine(before, s, n);
      assert longer + s[n + 1..] == file;
      MatchesRendered(query, longer, s[n + 1..]);
      FirstLineMatches(query, s, n, position);
      assert found.Some? ==> Ended(file, found.value) by { EndedBefore(query, before, s, n); }
      RenderedCons(query, file, found, AllMatches(query, s[n + 1..], NextLine(position, n)));
      RenderedCons(query, file, found, TerminatedMatches(query, s[n + 1..], NextLine(position, n)));
    }
  }

  lemma EndedBefore(query: LineQuery, before: seq<Byte>, s: seq<Byte>, n: nat)
    requires n < |s|
    ensures var found := LineMatch(query, s[..n], Behind(START, before));
            found.Some? ==> Ended(before + s, found.value)
  {
    hide PreviewOf, StripCarriageReturn, PreviewStart, NewlineCount, FindFolded;
  }

  lemma UnterminatedRendered(query: LineQuery, file: seq<Byte>, s: seq<Byte>, position: ScanPosition)
    requires NewlineIndex(s) == |s|
    requires LineMatch(query, s[..|s|], position).Some? ==>
               Renders(query, file, LineMatch(query, s[..|s|], position).value)
    ensures AllRendered(query, file, AllMatches(query, s, position))
    ensures TerminatedMatches(query, s, position) == []
  {
    hide Renders, LineMatch;
    NoLineFeed(query, s, position);
    assert s[..|s|] == s;
  }

  /** Everything reported for a file renders its line; the terminated lines have their line feed in the file. */
  lemma FileMatchesRendered(query: LineQuery, file: seq<Byte>)
    ensures AllRendered(query, file, AllMatches(query, file, START))
    ensures AllRendered(query, file, TerminatedMatches(query, file, START))
            && AllEnded(file, TerminatedMatches(query, file, START))
  {
    hide Renders, Ended, AllMatches, TerminatedMatches;
    MatchesRendered(query, [], file);
    assert [] + file == file;
    assert Behind(START, []) == START;
  }

  /** A line that ends inside a file is the same line in every file that extends it. */
  lemma EndedLineStays(file: seq<Byte>, longer: seq<Byte>, start: nat)
    requires file <= longer && start <= |file| && start + |LineFrom(file, start)| < |file|
    ensures LineFrom(longer, start) == LineFrom(file, start)
  {
    hide NewlineIndex;
    var line := LineFrom(file, start);
    var end := start + |line|;
    var before, after := longer[..start], longer[end..];
    assert line == longer[start..end] by {
      assert forall i :: 0 <= i < |line| ==> line[i] == From(file, start)[i] == longer[start..end][i];
    }
    assert after[0] == From(file, start)[|line|] == LF;
    assert longer == before + line + after;
    LineIsFrom(before, line, after);
  }

  lemma RenderedInLonger(query: LineQuery, file: seq<Byte>, longer: seq<Byte>, m: ScanMatch)
    requires file <= longer && Renders(query, file, m) && Ended(file, m)
    ensures Renders(query, longer, m)
  {
    hide LineFrom, PreviewOf, StripCarriageReturn, PreviewStart;
    EndedLineStays(file, longer, m.lineStartOffset);
  }

  // ---------- nothing is missed ----------

  /** `m` is the report for the line that holds the occurrence at `i`. */
  predicate Reports(query: LineQuery, file: seq<Byte>, m: ScanMatch, i: nat) {
    && m.lineStartOffset <= m.matchByteOffset <= i <= |file|
    && LF !in file[m.lineStartOffset..i]
  }

  ghost predicate Reported(query: LineQuery, file: seq<Byte>, found: seq<ScanMatch>, i: nat) {
    exists k :: 0 <= k < |found| && Reports(query, file, found[k], i)
  }

  lemma ReportedFirst(query: LineQuery, file: seq<Byte>, found: ScanMatch, rest: seq<ScanMatch>, i: nat)
    requires Reports(query, file, found, i)
    ensures Reported(query, file, Listed(Some(found)) + rest, i)
  {
    assert (Listed(Some(found)) + rest)[0] == found;
  }

  lemma ReportedLater(query: LineQuery, file: seq<Byte>, found: Option<ScanMatch>, rest: seq<ScanMatch>, i: nat)
    requires Reported(query, file, rest, i)
    ensures Reported(query, file, Listed(found) + rest, i)
  {
    var k :| 0 <= k < |rest| && Reports(query, file, rest[k], i);
    assert (Listed(found) + rest)[|Listed(found)| + k] == rest[k];
  }

  /** No line feed stands inside an occurrence. */
  lemma OccurrenceHasNoLineFeed(query: LineQuery, file: seq<Byte>, i: nat, j: nat)
    requires query.Searchable() && OccursAt(file, query.keyword, query.caseSensitive, i)
    requires i <= j < i + |query.keyword|
    ensures file[j] != LF
  {
    var copy := file[i..i + |query.keyword|];
    assert copy[j - i] == file[j];
    assert Fold(copy[j - i], query.caseSensitive) == Fold(query.keyword[j - i], query.caseSensitive);
    assert query.keyword[j - i] in query.keyword;
  }

  /** An occurrence in the first line makes that line's report. */
  lemma FirstLineReports(query: LineQuery, before: seq<Byte>, line: seq<Byte>, after: seq<Byte>, i: nat)
    requires query.Searchable() && LF !in line
    requires |before| <= i && i + |query.keyword| <= |before| + |line|
    requires OccursAt(before + line + after, query.keyword, query.caseSensitive, i)
    ensures var found := LineMatch(query, line, Behind(START, before));
            found.Some? && Reports(query, before + line + after, found.value, i)
  {
    hide PreviewOf, StripCarriageReturn, PreviewStart, NewlineCount, FindFolded;
    var file := before + line + after;
    OccursShifted(before, line, after, query.keyword, query.caseSensitive, i - |before|);
    FindFoldedIsLeftmost(line, query.keyword, query.caseSensitive);
    var at := FindFolded(line, query.keyword, query.caseSensitive);
    assert at.Some?;
    MatchOffsets(query, line, at.value, Behind(START, before));
    assert file[|before|..i] == line[..i - |before|];
  }

  lemma {:induction false} OccurrenceReported(query: LineQuery, before: seq<Byte>, s: seq<Byte>, i: nat)
    requires query.Searchable() && WholeLines(before) && |before| <= i
    requires OccursAt(before + s, query.keyword, query.caseSensitive, i)
    ensures Reported(query, before + s, AllMatches(query, s, Behind(START, before)), i)
    decreases |s|
  {
    hide LineMatch, AllMatches, TerminatedMatches, NewlineIndex, NewlineCount, Reported, OccursAt, Reports;
    var n, position, file := NewlineIndex(s), Behind(START, before), before + s;
    assert i + |query.keyword| <= |file| by { OccursFits(file, query.keyword, query.caseSensitive, i); }
    var found := LineMatch(query, s[..n], position);
    if |before| + n < |file| && |before| + n < i + |query.keyword| {
      if i <= |before| + n {
        OccurrenceHasNoLineFeed(query, file, i, |before| + n);
        assert false;
      }
      var longer := before + s[..n + 1];
      BehindLine(before, s, n);
      assert longer + s[n + 1..] == file;
      OccurrenceReported(query, longer, s[n + 1..], i);
      FirstLineMatches(query, s, n, position);
      ReportedLater(query, file, found, AllMatches(query, s[n + 1..], NextLine(position, n)), i);
    } else {
      assert before + s[..n] + s[n..] == file;
      FirstLineReports(query, before, s[..n], s[n..], i);
      if n < |s| {
        FirstLineMatches(query, s, n, position);
        ReportedFirst(query, file, found.value, AllMatches(query, s[n + 1..], NextLine(position, n)), i);
      } else {
        NoLineFeed(query, s, position);
        assert s[..n] == s && Listed(found) + [] == Listed(found);
        ReportedFirst(query, file, found.value, [], i);
      }
    }
  }

  lemma OccursFits(file: seq<Byte>, keyword: seq<Byte>, caseSensitive: bool, i: nat)
    requires OccursAt(file, keyword, caseSensitive, i)
    ensures i + |keyword| <= |file|
  {
  }

  /** Every occurrence of the keyword lies in a reported line, at or behind the reported offset. */
  lemma NothingMissed(query: LineQuery, file: seq<Byte>, i: nat)
    requires query.Searchable() && OccursAt(file, query.keyword, query.caseSensitive, i)
    ensures Reported(query, file, AllMatches(query, file, START), i)
  {
    hide AllMatches, Reported, OccursAt;
    OccurrenceReported(query, [], file, i) by {
      assert [] + file == file;
    }
    assert [] + file == file;
    assert Behind(START, []) == START;
  }

  // ---------- the reports of a file, and nothing else ----------

  /** One occurrence, first in its line, has one report. */
  lemma SameReport(query: LineQuery, file: seq<Byte>, a: ScanMatch, b: ScanMatch)
    requires Located(query, file, a) && Renders(query, file, a) && Located(query, file, b) && Renders(query, file, b)
    requires Reports(query, file, b, a.matchByteOffset)
    ensures a == b
  {
    hide OccursAt, MatchAt, NewlineCount, LineFrom;
    var i := a.matchByteOffset;
    assert a.lineStartOffset == b.lineStartOffset by {
      KeywordApart(query, file, a);
      StartsOnce(file, a.lineStartOffset, b.lineStartOffset, i);
      StartsOnce(file, b.lineStartOffset, a.lineStartOffset, i);
    }
  }

  /** No line begins inside another. */
  lemma StartsOnce(file: seq<Byte>, a: nat, b: nat, i: nat)
    requires a <= i <= |file| && b <= i && LF !in file[a..i] && WholeLines(file[..b])
    ensures b <= a
  {
    var behind := file[a..i];
    assert forall k :: 0 <= k < |behind| ==> behind[k] == file[a + k];
    assert forall k :: a <= k < i ==> file[k] != LF by {
      assert forall k :: a <= k < i ==> behind[k - a] == file[k];
    }
    assert b > 0 ==> file[..b][b - 1] == file[b - 1];
  }

  lemma KeywordApart(query: LineQuery, file: seq<Byte>, m: ScanMatch)
    requires Located(query, file, m)
    ensures LF !in file[m.lineStartOffset..m.matchByteOffset]
  {
    hide OccursAt, NewlineCount;
    var longer := file[m.lineStartOffset..m.matchByteOffset + |query.keyword|];
    var part := file[m.lineStartOffset..m.matchByteOffset];
    assert forall k :: 0 <= k < |part| ==> part[k] == longer[k];
  }

  /** A file's matches are exactly the located reports that render their line. */
  lemma MatchesAreLocated(query: LineQuery, file: seq<Byte>, m: ScanMatch)
    requires query.Searchable()
    ensures m in AllMatches(query, file, START) <==> Located(query, file, m) && Renders(query, file, m)
  {
    hide AllMatches, OccursAt, Located, Renders, Reports;
    FileMatchesLocated(query, file);
    FileMatchesRendered(query, file);
    if Located(query, file, m) && Renders(query, file, m) {
      assert OccursAt(file, query.keyword, query.caseSensitive, m.matchByteOffset) by { LocatedOccurs(query, file, m); }
      NothingMissed(query, file, m.matchByteOffset);
      var found := AllMatches(query, file, START);
      var k :| 0 <= k < |found| && Reports(query, file, found[k], m.matchByteOffset);
      SameReport(query, file, m, found[k]);
    }
  }

  lemma LocatedOccurs(query: LineQuery, file: seq<Byte>, m: ScanMatch)
    requires Located(query, file, m)
    ensures OccursAt(file, query.keyword, query.caseSensitive, m.matchByteOffset)
  {
    hide OccursAt, NewlineCount;
  }

  // ---------- what the flags of a report say ----------

  /**
   The report is marked truncated exactly when its window is not the whole line, and lossy exactly when decoding
   changed it.
   */
  lemma FlagsAreExact(query: LineQuery, line: seq<Byte>, at: nat, position: ScanPosition)
    requires query.Searchable() && at + |query.keyword| <= |line|
    ensures var m, preview := MatchAt(query, line, at, position), PreviewOf(query, line, at);
            var start := PreviewStart(at, |query.keyword|, query.maxLineBytes);
            var shown := StripCarriageReturn(preview, start + |preview| == |line|);
            && (m.contentTruncated <==> preview != line)
            && (m.contentLossy <==> m.content != shown)
            && m.originalLineBytes == |line|
  {
    hide Utf8.Valid, Utf8.Lossy, CharCount;
    var preview := PreviewOf(query, line, at);
    var start := PreviewStart(at, |query.keyword|, query.maxLineBytes);
    Utf8.LossyFixesStrings(StripCarriageReturn(preview, start + |preview| == |line|));
    if start == 0 && |preview| == |line| {
      assert preview == line;
    }
  }

  /**
   A line that would fit the limit is still cut in front exactly when its match begins behind the room kept before
   a match.
   */
  lemma FittingLineIsCut(query: LineQuery, line: seq<Byte>, at: nat, position: ScanPosition)
    requires query.Searchable() && at + |query.keyword| <= |line| <= query.maxLineBytes
    ensures MatchAt(query, line, at, position).contentTruncated <==> at > (query.maxLineBytes - |query.keyword|) / 2
  {
    hide Utf8.Valid, Utf8.Lossy, CharCount;
  }

  /** Such a line: four bytes, shown in at most five, with its one match at the end. */
  lemma ShortLineIsCut()
    ensures var query := LineQuery([97], true, 5);
            var found := LineMatch(query, [120, 120, 120, 97], START);
            query.Searchable() && found.Some? && found.value.contentTruncated
  {
    var query := LineQuery([97], true, 5);
    var line: seq<Byte> := [120, 120, 120, 97];
    assert OccursAt(line, query.keyword, true, 3);
    forall j: nat | j < 3
      ensures !OccursAt(line, query.keyword, true, j)
    {
      assert line[j..j + 1][0] == 120;
    }
    LeftmostIsFound(line, query.keyword, true, 3);
    FittingLineIsCut(query, line, 3, START);
  }
}
