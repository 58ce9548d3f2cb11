/**
 The time filter of a query, said by the times that stand in the lines: what a source's rule sees of a line, and which
 times are in range.
 */
module TimeFilter {
  import opened Wrappers
  import opened Bytes
  import opened ScanSpec
  import opened Watermark
  import opened QueryState
  import opened PageSpec
  import MatchFacts

  // ---------- the time of a line ----------

  /** What the rule of a source finds in a line, of which it sees the first bytes. */
  function TimeOfLine(parser: Option<TimestampParser>, line: seq<Byte>): TimestampObservation {
    match parser
    case None => TimestampObservation(None, false)
    case Some(rule) => rule.observe(line[..Min(rule.prefixBytes, |line|)])
  }

  /** What is found in the line of a match. */
  function TimeOf(frozen: FrozenCandidate, m: ScanMatch): TimestampObservation {
    TimeOfLine(frozen.parser,
               if m.lineStartOffset <= |frozen.bytes| then MatchFacts.LineFrom(frozen.bytes, m.lineStartOffset) else [])
  }

  /** The prefix that is read for a match is the beginning of its line. */
  lemma ObservesItsLine(frozen: FrozenCandidate, m: ScanMatch)
    ensures Observe(frozen.parser, frozen.bytes, m) == TimeOf(frozen, m)
  {
    hide NewlineIndex;
    var start := m.lineStartOffset;
    if frozen.parser.Some? {
      var maximum := frozen.parser.value.prefixBytes;
      if start < |frozen.bytes| {
        var rest := From(frozen.bytes, start);
        var window := frozen.bytes[start..Min(start + maximum, |frozen.bytes|)];
        assert window == rest[..Min(maximum, |rest|)];
        FirstFeedOfStart(rest, Min(maximum, |rest|));
        assert window[..NewlineIndex(window)] == rest[..NewlineIndex(rest)][..Min(maximum, NewlineIndex(rest))];
      } else if start == |frozen.bytes| {
        assert From(frozen.bytes, start) == [];
      }
    }
  }

  lemma FirstFeedOfStart(s: seq<Byte>, k: nat)
    requires k <= |s|
    ensures NewlineIndex(s[..k]) == Min(k, NewlineIndex(s))
  {
    hide NewlineIndex;
    var part := s[..k];
    assert forall i :: 0 <= i < k ==> part[i] == s[i];
  }

  // ---------- the range ----------

  /** From the start on, and before the end, where these are set. */
  predicate InTime(binding: QueryBinding, t: int) {
    && (binding.startTime.Some? ==> binding.startTime.value <= t)
    && (binding.endTime.Some? ==> t < binding.endTime.value)
  }

  /** A known time out of range. */
  predicate OutOfTime(binding: QueryBinding, seen: TimestampObservation) {
    seen.timestamp.Some? && !InTime(binding, seen.timestamp.value)
  }

  /** Which decision belongs to which line. */
  predicate Decided(binding: QueryBinding, decision: TimeFilterDecision, seen: TimestampObservation) {
    && (decision == OutOfRange <==> OutOfTime(binding, seen))
    && (decision == UnknownTimestamp <==> seen.timestamp.None? && !seen.malformed)
    && (decision == MalformedTimestamp <==> seen.timestamp.None? && seen.malformed)
  }

  lemma JudgedByItsTime(binding: QueryBinding, frozen: FrozenCandidate, m: ScanMatch)
    ensures var judged := Judge(binding, frozen.candidate, frozen.parser, frozen.bytes, m);
            Decided(binding, judged.decision, TimeOf(frozen, m))
            && judged.ranked.key.timestampUtc == TimeOf(frozen, m).timestamp
  {
    hide Observe, TimeOf;
    ObservesItsLine(frozen, m);
  }
}
