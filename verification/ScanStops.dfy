/**
 What the limits of a scan mean: it returns the first matches there are, no more than the result limit and the content
 limit allow, and says which of the two stopped it.
 */
module ScanStops {
  import opened Wrappers
  import opened Bytes
  import opened ScanSpec
  import ChunkedScan

  /** The decoded content of all these matches. */
  function Content(found: seq<ScanMatch>): nat {
    if found == [] then 0 else Content(found[..|found| - 1]) + |found[|found| - 1].content|
  }

  /** There is room for one more match. */
  predicate Open(limits: ScanLimits, done: Progress) {
    && |done.results| < limits.maxResults
    && done.contentBytes == Content(done.results) < limits.maxReturnedContentBytes
  }

  /** The next match, if there is one, does not fit the content limit, or the limit is used up. */
  predicate ContentSpent(limits: ScanLimits, content: nat, all: seq<ScanMatch>, taken: nat) {
    || content == limits.maxReturnedContentBytes
    || (taken < |all| && content + |all[taken].content| > limits.maxReturnedContentBytes)
  }

  /** The outcome adds `taken` of these matches to what has been reported, as its stop reason says. */
  predicate StopsRightly(limits: ScanLimits, done: Progress, all: seq<ScanMatch>, o: ScanOutcome, taken: nat) {
    && taken <= |all| && o.results == done.results + all[..taken]
    && |o.results| <= limits.maxResults
    && o.returnedContentBytes == Content(o.results) <= limits.maxReturnedContentBytes
    && (o.stopReason == ResultLimit <==> |o.results| == limits.maxResults)
    && (o.stopReason == ReturnedContentByteLimit ==> ContentSpent(limits, o.returnedContentBytes, all, taken))
    && (o.returnedContentBytes == limits.maxReturnedContentBytes && |o.results| < limits.maxResults ==>
          o.stopReason == ReturnedContentByteLimit)
  }

  lemma ContentSnoc(found: seq<ScanMatch>, m: ScanMatch)
    ensures Content(found + [m]) == Content(found) + |m.content|
  {
    assert (found + [m])[..|found|] == found;
  }

  /** The line's match is dropped, kept, or kept as the last one. */
  lemma LineStops(request: ScanRequest, found: Option<ScanMatch>, consumed: nat, done: Progress, more: seq<ScanMatch>,
                  next: Option<ScanPosition>)
    requires Open(request.limits, done)
    ensures var (after, stop) := CloseLine(request.limits, found, consumed, done);
            var all := Listed(found) + more;
            && after.results == done.results + (if after.results == done.results then [] else Listed(found))
            && (stop.Some? ==>
                  StopsRightly(request.limits, done, all, Outcome(request, after, stop.value, next),
                               |after.results| - |done.results|))
            && (stop.None? ==> Open(request.limits, after) && after.results == done.results + Listed(found))
  {
    hide Content;
    if found.Some? {
      ContentSnoc(done.results, found.value);
      var all := Listed(found) + more;
      assert all[0] == found.value && all[..1] == [found.value] && all[..0] == [];
      assert done.results + [] == done.results;
    }
  }

  lemma NothingTaken(limits: ScanLimits, done: Progress, all: seq<ScanMatch>, o: ScanOutcome)
    requires Open(limits, done) && o.results == done.results && o.returnedContentBytes == done.contentBytes
    requires o.stopReason == Complete || o.stopReason == ScanByteLimit
    ensures StopsRightly(limits, done, all, o, 0)
  {
    hide Content;
    assert done.results + all[..0] == done.results;
  }

  lemma StopsLater(limits: ScanLimits, done: Progress, found: Option<ScanMatch>, after: Progress,
                   more: seq<ScanMatch>, o: ScanOutcome, taken: nat)
    requires after.results == done.results + Listed(found) && StopsRightly(limits, after, more, o, taken)
    ensures StopsRightly(limits, done, Listed(found) + more, o, |Listed(found)| + taken)
  {
    hide Content;
    var all, k := Listed(found) + more, |Listed(found)|;
    assert all[..k + taken] == Listed(found) + more[..taken];
    assert done.results + all[..k + taken] == after.results + more[..taken];
  }

  /** A scan takes the first matches of the data, and stops as its limits say. */
  lemma {:induction false} ScanStopsRightly(request: ScanRequest, rest: seq<Byte>, budget: nat, done: Progress)
    returns (taken: nat)
    requires Open(request.limits, done)
    ensures StopsRightly(request.limits, done,
                         AllMatches(request.Query(), rest, PositionAfter(request.startPosition, done)),
                         ScanFrom(request, rest, budget, done), taken)
    decreases |rest|
  {
    hide LineMatch, StopsRightly, CloseLine, Open, AllMatches, NewlineIndex;
    var position := PositionAfter(request.startPosition, done);
    var all := AllMatches(request.Query(), rest, position);
    var n := NewlineIndex(rest);
    if budget == 0 || rest == [] || (n >= budget && |rest| >= budget) {
      NothingTaken(request.limits, done, all, ScanFrom(request, rest, budget, done));
      taken := 0;
    } else {
      var found := LineMatch(request.Query(), rest[..n], position);
      var whole := n < |rest| && n < budget;
      var consumed := if whole then n + 1 else |rest|;
      var (after, stop) := CloseLine(request.limits, found, consumed, done);
      FirstOf(request.Query(), rest, position);
      var behind := if n < |rest| then AllMatches(request.Query(), rest[n + 1..], NextLine(position, n)) else [];
      LineStops(request, found, consumed, done, behind,
                if whole then Some(PositionAfter(request.startPosition, after)) else None);
      if stop.Some? {
        taken := |after.results| - |done.results|;
      } else if whole {
        OneLineOn(request, found, n, done);
        var more := ScanStopsRightly(request, rest[n + 1..], budget - n - 1, after);
        StopsLater(request.limits, done, found, after, behind, ScanFrom(request, rest, budget, done), more);
        taken := |Listed(found)| + more;
      } else {
        NothingTaken(request.limits, after, behind, ScanFrom(request, rest, budget, done));
        StopsLater(request.limits, done, found, after, behind, ScanFrom(request, rest, budget, done), 0);
        taken := |Listed(found)|;
      }
    }
  }

  lemma OneLineOn(request: ScanRequest, found: Option<ScanMatch>, n: nat, done: Progress)
    ensures PositionAfter(request.startPosition, CloseLine(request.limits, found, n + 1, done).0)
            == NextLine(PositionAfter(request.startPosition, done), n)
  {
  }

  lemma FirstOf(query: LineQuery, s: seq<Byte>, position: ScanPosition)
    requires s != []
    ensures var n := NewlineIndex(s);
            AllMatches(query, s, position)
            == Listed(LineMatch(query, s[..n], position))
               + if n < |s| then AllMatches(query, s[n + 1..], NextLine(position, n)) else []
  {
    hide LineMatch, AllMatches, TerminatedMatches, NewlineIndex;
    var n := NewlineIndex(s);
    if n < |s| {
      ChunkedScan.FirstLineMatches(query, s, n, position);
    } else {
      ChunkedScan.NoLineFeed(query, s, position);
      assert s[..n] == s && Listed(LineMatch(query, s, position)) + [] == Listed(LineMatch(query, s, position));
    }
  }

  /** The whole scan of a valid request. */
  lemma LimitsStopScan(request: ScanRequest, data: seq<Byte>, budget: nat) returns (taken: nat)
    requires request.Validate().None?
    ensures StopsRightly(request.limits, NOTHING, AllMatches(request.Query(), data, request.startPosition),
                         ScanWithin(request, data, budget), taken)
  {
    hide StopsRightly, AllMatches, ScanFrom;
    NothingYet(request.startPosition);
    taken := ScanStopsRightly(request, data, budget, NOTHING);
  }

  lemma NothingYet(position: ScanPosition)
    ensures PositionAfter(position, NOTHING) == position && Content([]) == 0
  {
  }
}
