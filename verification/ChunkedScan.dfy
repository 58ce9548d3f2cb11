/**
 A scan resumed at the positions it reports loses and repeats nothing: what one bounded scan returns in
 terms of the matches of the bytes it consumed, and how matches and line counts split at line boundaries.
 */
module ChunkedScan {
  import opened Wrappers
  import opened Bytes
  import opened Collections
  import opened ScanSpec
  import Utf8

  /** `s` is empty or ends with a line feed. */
  predicate WholeLines(s: seq<Byte>) {
    s == [] || s[|s| - 1] == LF
  }

  /** The position behind `s`, counting lines by their line feeds. */
  function Behind(position: ScanPosition, s: seq<Byte>): ScanPosition {
    ScanPosition(position.byteOffset + |s|, position.lineNumber + NewlineCount(s))
  }

  // ---------- cutting a sequence of lines ----------

  /** The first line of whole lines is not changed by what follows them. */
  lemma FirstLineOf(a: seq<Byte>, b: seq<Byte>)
    requires a != [] && WholeLines(a)
    ensures var n := NewlineIndex(a);
            && n < |a| && NewlineIndex(a + b) == n
            && (a + b)[..n] == a[..n] && (a + b)[n + 1..] == a[n + 1..] + b
            && WholeLines(a[n + 1..])
  {
    var n := NewlineIndex(a);
    assert (a + b)[n] == a[n];
    assert forall i :: 0 <= i < n ==> (a + b)[i] == a[i];
    assert n + 1 < |a| ==> a[n + 1..][|a| - n - 2] == LF;
  }

  lemma FirstLineMatches(query: LineQuery, s: seq<Byte>, n: nat, position: ScanPosition)
    requires n == NewlineIndex(s) < |s|
    ensures AllMatches(query, s, position)
         == Listed(LineMatch(query, s[..n], position)) + AllMatches(query, s[n + 1..], NextLine(position, n))
    ensures TerminatedMatches(query, s, position)
         == Listed(LineMatch(query, s[..n], position)) + TerminatedMatches(query, s[n + 1..], NextLine(position, n))
    ensures NewlineCount(s) == 1 + NewlineCount(s[n + 1..])
  {
    hide LineMatch;
  }

  /** Matches of whole lines and of what follows them are found independently. */
  lemma {:induction false} MatchesSplit(query: LineQuery, a: seq<Byte>, b: seq<Byte>, position: ScanPosition)
    requires WholeLines(a)
    ensures AllMatches(query, a + b, position)
         == TerminatedMatches(query, a, position) + AllMatches(query, b, Behind(position, a))
  {
    hide LineMatch, AllMatches, TerminatedMatches, NewlineCount, NewlineIndex;
    if a == [] {
      NothingBefore(query, a, b, position);
    } else {
      FirstLineOf(a, b);
      var n := NewlineIndex(a);
      var tail, next := a[n + 1..], NextLine(position, n);
      FirstLineMatches(query, a, n, position);
      FirstLineMatches(query, a + b, n, position);
      MatchesSplit(query, tail, b, next);
      Regroup(Listed(LineMatch(query, a[..n], position)), TerminatedMatches(query, tail, next),
              AllMatches(query, b, Behind(position, a)));
    }
  }

  lemma NothingBefore(query: LineQuery, a: seq<Byte>, b: seq<Byte>, position: ScanPosition)
    requires a == []
    ensures TerminatedMatches(query, a, position) == [] && a + b == b && Behind(position, a) == position
  {
  }

  lemma {:induction false} TerminatedSplit(query: LineQuery, a: seq<Byte>, b: seq<Byte>, position: ScanPosition)
    requires WholeLines(a)
    ensures TerminatedMatches(query, a + b, position)
         == TerminatedMatches(query, a, position) + TerminatedMatches(query, b, Behind(position, a))
  {
    hide LineMatch, AllMatches, TerminatedMatches, NewlineCount, NewlineIndex;
    if a == [] {
      NothingBefore(query, a, b, position);
    } else {
      FirstLineOf(a, b);
      var n := NewlineIndex(a);
      var tail, next := a[n + 1..], NextLine(position, n);
      FirstLineMatches(query, a, n, position);
      FirstLineMatches(query, a + b, n, position);
      TerminatedSplit(query, tail, b, next);
      Regroup(Listed(LineMatch(query, a[..n], position)), TerminatedMatches(query, tail, next),
              TerminatedMatches(query, b, Behind(position, a)));
    }
  }

  lemma {:induction false} CountsSplit(a: seq<Byte>, b: seq<Byte>)
    requires WholeLines(a)
    ensures LineCount(a + b) == NewlineCount(a) + LineCount(b)
    ensures NewlineCount(a + b) == NewlineCount(a) + NewlineCount(b)
  {
    if a == [] {
      assert a + b == b;
    } else {
      FirstLineOf(a, b);
      CountsSplit(a[NewlineIndex(a) + 1..], b);
    }
  }

  /** When the bytes end with a line feed, every line is terminated. */
  lemma AllTerminated(query: LineQuery, s: seq<Byte>, position: ScanPosition)
    requires WholeLines(s)
    ensures AllMatches(query, s, position) == TerminatedMatches(query, s, position)
    ensures LineCount(s) == NewlineCount(s)
  {
    hide LineMatch;
    MatchesSplit(query, s, [], position);
    CountsSplit(s, []);
    assert s + [] == s;
  }

  // ---------- the content bound ----------

  /** Results of at most `maxLineBytes` bytes each, decoded, fit the content limit before the result limit is passed. */
  predicate ContentFits(limits: ScanLimits) {
    0 < limits.maxResults && 0 < limits.maxLineBytes
    && limits.maxResults * (3 * limits.maxLineBytes) <= limits.maxReturnedContentBytes
  }

  predicate Room(limits: ScanLimits, done: Progress) {
    && |done.results| < limits.maxResults
    && done.contentBytes <= |done.results| * (3 * limits.maxLineBytes)
  }

  /** A match's content is the decoded window, so at most three times as long. */
  lemma ContentBound(query: LineQuery, line: seq<Byte>, position: ScanPosition)
    requires LineMatch(query, line, position).Some?
    ensures |LineMatch(query, line, position).value.content| <= 3 * query.maxLineBytes
  {
    hide Utf8.Lossy, Utf8.Valid, FindFolded;
    var at := FindFolded(line, query.keyword, query.caseSensitive).value;
    var start := PreviewStart(at, |query.keyword|, query.maxLineBytes);
    var preview := PreviewOf(query, line, at);
    Utf8.LossyExpansion(StripCarriageReturn(preview, start + |preview| == |line|));
  }

  /** With that room a match is always kept, and only the result limit can stop the scan. */
  lemma KeepFits(limits: ScanLimits, found: Option<ScanMatch>, done: Progress)
    requires ContentFits(limits) && Room(limits, done)
    requires found.Some? ==> |found.value.content| <= 3 * limits.maxLineBytes
    ensures var (next, stop) := KeepMatch(limits, found, done);
            && next.results == done.results + Listed(found)
            && next.bytesScanned == done.bytesScanned && next.linesScanned == done.linesScanned
            && (if stop == None then Room(limits, next)
                else stop == Some(ResultLimit) && |next.results| >= limits.maxResults)
  {
    if found.Some? {
      var width, count := 3 * limits.maxLineBytes, |done.results|;
      assert (count + 1) * width == count * width + width;
      if count + 1 < limits.maxResults {
        FewerFit(count + 1, limits.maxResults, width);
      } else {
        assert count + 1 == limits.maxResults;
      }
    } else {
      assert done.results + [] == done.results;
    }
  }

  lemma FewerFit(fewer: nat, more: nat, width: nat)
    requires fewer < more
    ensures fewer * width + width <= more * width
  {
    assert (more - fewer - 1) * width >= 0;
    assert more * width == fewer * width + width + (more - fewer - 1) * width;
  }

  // ---------- one bounded scan ----------

  /** The scan consumed `k` bytes of `rest` and stopped between or inside lines. */
  ghost predicate Stopped(request: ScanRequest, rest: seq<Byte>, budget: nat, done: Progress, o: ScanOutcome, k: nat) {
    var position := PositionAfter(request.startPosition, done);
    && k <= |rest| && k <= budget
    && o.bytesScanned == done.bytesScanned + k
    && o.linesScanned == done.linesScanned + NewlineCount(rest[..k])
    && o.results == done.results + TerminatedMatches(request.Query(), rest[..k], position)
    && match o.stopReason
       case ResultLimit =>
         && k > 0 && WholeLines(rest[..k]) && |o.results| >= request.limits.maxResults
         && o.nextPosition == Some(Behind(position, rest[..k]))
       case ScanByteLimit =>
         && k == budget && |o.results| < request.limits.maxResults
         && o.nextPosition == if WholeLines(rest[..k]) then Some(Behind(position, rest[..k])) else None
       case _ => false
  }

  /** The scan saw the end of the data. */
  ghost predicate Ended(request: ScanRequest, rest: seq<Byte>, budget: nat, done: Progress, o: ScanOutcome) {
    var position := PositionAfter(request.startPosition, done);
    && |rest| < budget
    && o.bytesScanned == done.bytesScanned + |rest|
    && o.linesScanned == done.linesScanned + LineCount(rest)
    && o.results == done.results + AllMatches(request.Query(), rest, position)
    && (o.stopReason == Complete || o.stopReason == ResultLimit)
    && o.nextPosition == None
  }

  ghost predicate Meaning(request: ScanRequest, rest: seq<Byte>, budget: nat, done: Progress, o: ScanOutcome) {
    || Ended(request, rest, budget, done, o)
    || (o.bytesScanned >= done.bytesScanned
        && Stopped(request, rest, budget, done, o, o.bytesScanned - done.bytesScanned))
  }

  lemma NoLineFeed(query: LineQuery, s: seq<Byte>, position: ScanPosition)
    requires NewlineIndex(s) == |s|
    ensures TerminatedMatches(query, s, position) == [] && NewlineCount(s) == 0
    ensures s != [] ==> !WholeLines(s) && AllMatches(query, s, position) == Listed(LineMatch(query, s, position))
    ensures s != [] ==> LineCount(s) == 1
  {
    hide LineMatch;
    assert s[..|s|] == s;
  }

  lemma CutBehind(s: seq<Byte>, m: nat, k: nat)
    requires m <= k <= |s|
    ensures s[..k][..m] == s[..m]
    ensures s[..k][m..] == s[m..][..k - m]
  {
  }

  /** Cutting behind the first line feed keeps the first line. */
  lemma PrefixKeepsLine(s: seq<Byte>, k: nat)
    requires NewlineIndex(s) < k <= |s|
    ensures NewlineIndex(s[..k]) == NewlineIndex(s)
    ensures var n := NewlineIndex(s);
            && s[..k][..n] == s[..n] && s[..k][n + 1..] == s[n + 1..][..k - n - 1]
            && (WholeLines(s[..k]) <==> WholeLines(s[n + 1..][..k - n - 1]))
  {
    hide NewlineIndex;
    var n := NewlineIndex(s);
    CutBehind(s, n, k);
    CutBehind(s, n + 1, k);
    PrefixHasLine(s[..k], s, n);
    WholeBehindFirst(s, n, k);
  }

  lemma WholeBehindFirst(s: seq<Byte>, n: nat, k: nat)
    requires n < k <= |s| && s[n] == LF
    ensures WholeLines(s[..k]) <==> WholeLines(s[n + 1..][..k - n - 1])
  {
    var rest := s[n + 1..][..k - n - 1];
    assert k - n - 1 > 0 ==> rest[k - n - 2] == s[k - 1];
    assert s[..k][k - 1] == s[k - 1];
  }

  lemma PrefixHasLine(prefix: seq<Byte>, s: seq<Byte>, n: nat)
    requires n == NewlineIndex(s) < |prefix| && prefix <= s
    ensures NewlineIndex(prefix) == n
  {
    assert prefix[n] == s[n];
    assert forall i :: 0 <= i < n ==> prefix[i] == s[i];
  }

  lemma PrefixWithoutLineFeed(s: seq<Byte>, k: nat)
    requires k <= |s| && k <= NewlineIndex(s)
    ensures NewlineIndex(s[..k]) == k
  {
    assert forall i :: 0 <= i < k ==> s[..k][i] == s[i] != LF;
  }

  /** The first line and `k` bytes behind it, as one piece and as two. */
  lemma FirstAndMore(query: LineQuery, rest: seq<Byte>, n: nat, k: nat, position: ScanPosition)
    requires n == NewlineIndex(rest) < |rest| && n + 1 + k <= |rest|
    ensures var piece, more := rest[..n + 1 + k], rest[n + 1..][..k];
            && TerminatedMatches(query, piece, position)
               == Listed(LineMatch(query, rest[..n], position)) + TerminatedMatches(query, more, NextLine(position, n))
            && NewlineCount(piece) == 1 + NewlineCount(more)
            && (WholeLines(piece) <==> WholeLines(more))
            && Behind(position, piece) == Behind(NextLine(position, n), more)
  {
    hide LineMatch, AllMatches, TerminatedMatches, NewlineCount, NewlineIndex, WholeLines;
    PrefixKeepsLine(rest, n + 1 + k);
    FirstLineMatches(query, rest[..n + 1 + k], n, position);
  }

  /** What the rest of the scan did after the first line, seen from before the first line. */
  lemma StoppedLater(request: ScanRequest, rest: seq<Byte>, n: nat, budget: nat, done: Progress, next: Progress,
                     o: ScanOutcome, k: nat)
    requires n == NewlineIndex(rest) < |rest| && n < budget
    requires next.results == done.results
             + Listed(LineMatch(request.Query(), rest[..n], PositionAfter(request.startPosition, done)))
    requires next.bytesScanned == done.bytesScanned + n + 1 && next.linesScanned == done.linesScanned + 1
    requires Stopped(request, rest[n + 1..], budget - n - 1, next, o, k)
    ensures Stopped(request, rest, budget, done, o, n + 1 + k)
  {
    hide LineMatch, AllMatches, TerminatedMatches, NewlineCount, NewlineIndex, WholeLines, Behind;
    var position := PositionAfter(request.startPosition, done);
    FirstAndMore(request.Query(), rest, n, k, position);
    Regroup(done.results, Listed(LineMatch(request.Query(), rest[..n], position)),
            TerminatedMatches(request.Query(), rest[n + 1..][..k], NextLine(position, n)));
    assert PositionAfter(request.startPosition, next) == NextLine(position, n);
  }

  lemma EndedLater(request: ScanRequest, rest: seq<Byte>, n: nat, budget: nat, done: Progress, next: Progress,
                   o: ScanOutcome)
    requires n == NewlineIndex(rest) < |rest| && n < budget
    requires next.results == done.results
             + Listed(LineMatch(request.Query(), rest[..n], PositionAfter(request.startPosition, done)))
    requires next.bytesScanned == done.bytesScanned + n + 1 && next.linesScanned == done.linesScanned + 1
    requires Ended(request, rest[n + 1..], budget - n - 1, next, o)
    ensures Ended(request, rest, budget, done, o)
  {
    hide LineMatch, AllMatches, TerminatedMatches, NewlineCount, NewlineIndex;
    var position := PositionAfter(request.startPosition, done);
    FirstLineMatches(request.Query(), rest, n, position);
    Regroup(done.results, Listed(LineMatch(request.Query(), rest[..n], position)),
            AllMatches(request.Query(), rest[n + 1..], NextLine(position, n)));
    assert PositionAfter(request.startPosition, next) == NextLine(position, n);
  }

  /** The scan stopped with the first line. */
  lemma StoppedAtFirst(request: ScanRequest, rest: seq<Byte>, n: nat, budget: nat, done: Progress, next: Progress)
    requires n == NewlineIndex(rest) < |rest| && n < budget
    requires next.results == done.results
             + Listed(LineMatch(request.Query(), rest[..n], PositionAfter(request.startPosition, done)))
    requires next.bytesScanned == done.bytesScanned + n + 1 && next.linesScanned == done.linesScanned + 1
    requires |next.results| >= request.limits.maxResults
    ensures Stopped(request, rest, budget, done,
                    Outcome(request, next, ResultLimit, Some(PositionAfter(request.startPosition, next))), n + 1)
  {
    hide LineMatch, AllMatches, TerminatedMatches, NewlineCount, NewlineIndex, WholeLines, Behind;
    var position := PositionAfter(request.startPosition, done);
    FirstAndMore(request.Query(), rest, n, 0, position);
    assert rest[n + 1..][..0] == [];
    NothingThere(request.Query(), NextLine(position, n));
    EmptyEnd(done.results, Listed(LineMatch(request.Query(), rest[..n], position)));
    assert PositionAfter(request.startPosition, next) == NextLine(position, n);
  }

  lemma NothingThere(query: LineQuery, position: ScanPosition)
    ensures TerminatedMatches(query, [], position) == [] && NewlineCount([]) == 0
    ensures WholeLines([]) && Behind(position, []) == position
  {
  }

  lemma EmptyEnd<T>(a: seq<T>, b: seq<T>)
    ensures a + (b + []) == a + b
  {
    assert b + [] == b;
  }

  /**
   The meaning of a bounded scan under limits that cannot overflow the content budget: the matches of the
   bytes consumed, complete when the end was seen, and otherwise a resumable position at a line boundary.
   */
  lemma {:induction false} ScanMeaning(request: ScanRequest, rest: seq<Byte>, budget: nat, done: Progress)
    requires ContentFits(request.limits) && Room(request.limits, done)
    ensures Meaning(request, rest, budget, done, ScanFrom(request, rest, budget, done))
    decreases |rest|
  {
    hide LineMatch, KeepMatch, Room, ScanFrom, Ended, Stopped;
    var n := NewlineIndex(rest);
    var o := ScanFrom(request, rest, budget, done);
    if budget == 0 {
      ScanNothing(request, rest, done);
    } else if rest == [] {
      ScanEmpty(request, budget, done);
    } else if n < |rest| && n < budget {
      var (next, stop) := KeptLine(request, rest[..n], n + 1, done);
      ScanFromLine(request, rest, n, budget, done);
      if stop.Some? {
        StoppedAtFirst(request, rest, n, budget, done, next);
      } else {
        ScanMeaning(request, rest[n + 1..], budget - n - 1, next);
        if Ended(request, rest[n + 1..], budget - n - 1, next, o) {
          EndedLater(request, rest, n, budget, done, next, o);
        } else {
          StoppedLater(request, rest, n, budget, done, next, o, o.bytesScanned - next.bytesScanned);
        }
      }
    } else if |rest| < budget {
      ScanLastLine(request, rest, budget, done);
    } else {
      ScanCut(request, rest, budget, done);
    }
  }

  lemma ScanLastLine(request: ScanRequest, rest: seq<Byte>, budget: nat, done: Progress)
    requires ContentFits(request.limits) && Room(request.limits, done)
    requires rest != [] && NewlineIndex(rest) == |rest| < budget
    ensures Ended(request, rest, budget, done, ScanFrom(request, rest, budget, done))
  {
    hide LineMatch, AllMatches, KeepMatch, Room;
    assert rest[..|rest|] == rest;
    var (next, stop) := KeptLine(request, rest, |rest|, done);
    NoLineFeed(request.Query(), rest, PositionAfter(request.startPosition, done));
  }

  lemma ScanCut(request: ScanRequest, rest: seq<Byte>, budget: nat, done: Progress)
    requires Room(request.limits, done)
    requires 0 < budget <= |rest| && budget <= NewlineIndex(rest)
    ensures Stopped(request, rest, budget, done, ScanFrom(request, rest, budget, done), budget)
    ensures ScanFrom(request, rest, budget, done).bytesScanned == done.bytesScanned + budget
  {
    hide LineMatch, AllMatches, TerminatedMatches, NewlineCount;
    PrefixWithoutLineFeed(rest, budget);
    NoLineFeed(request.Query(), rest[..budget], PositionAfter(request.startPosition, done));
  }

  function KeptLine(request: ScanRequest, line: seq<Byte>, consumed: nat, done: Progress)
    : (r: (Progress, Option<ScanStopReason>))
    requires ContentFits(request.limits) && Room(request.limits, done)
    ensures var found := LineMatch(request.Query(), line, PositionAfter(request.startPosition, done));
            && r == CloseLine(request.limits, found, consumed, done)
            && r.0.results == done.results + Listed(found)
            && r.0.bytesScanned == done.bytesScanned + consumed && r.0.linesScanned == done.linesScanned + 1
            && (if r.1 == None then Room(request.limits, r.0)
                else r.1 == Some(ResultLimit) && |r.0.results| >= request.limits.maxResults)
  {
    hide LineMatch;
    var found := LineMatch(request.Query(), line, PositionAfter(request.startPosition, done));
    var counted := done.(bytesScanned := done.bytesScanned + consumed, linesScanned := done.linesScanned + 1);
    if found.Some? then
      ContentBound(request.Query(), line, PositionAfter(request.startPosition, done));
      KeepFits(request.limits, found, counted);
      CloseLine(request.limits, found, consumed, done)
    else
      KeepFits(request.limits, found, counted);
      CloseLine(request.limits, found, consumed, done)
  }

  lemma ScanNothing(request: ScanRequest, rest: seq<Byte>, done: Progress)
    requires Room(request.limits, done)
    ensures Stopped(request, rest, 0, done, ScanFrom(request, rest, 0, done), 0)
    ensures ScanFrom(request, rest, 0, done).bytesScanned == done.bytesScanned
  {
    hide LineMatch, AllMatches;
    NoLineFeed(request.Query(), rest[..0], PositionAfter(request.startPosition, done));
  }

  lemma ScanEmpty(request: ScanRequest, budget: nat, done: Progress)
    requires budget > 0
    ensures Ended(request, [], budget, done, ScanFrom(request, [], budget, done))
  {
    hide LineMatch;
  }
}