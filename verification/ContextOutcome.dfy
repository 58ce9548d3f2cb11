/**
 The reply of a context read: consecutive lines around one match line that still holds the keyword, the nearest
 ones that fit the content budget, and counters that are exact.
 */
module ContextOutcome {
  import opened Wrappers
  import opened Bytes
  import opened Collections
  import opened QueryState
  import opened ContextSpec
  import ContextFacts
  import ContextLines
  import ScanSpec
  import Utf8

  // ---------- the content budget ----------

  /** The nearest lines before the match fit, and one more would not. */
  lemma {:induction false} KeptBeforeIsNearest(lines: seq<ContextLine>, used: nat, maximum: nat)
    requires used <= maximum
    ensures var kept := KeptBefore(lines, used, maximum);
            && EndOf(kept, lines)
            && used + ContentBytes(kept) <= maximum
            && (|kept| < |lines| ==> used + ContentBytes(kept) + |lines[|lines| - |kept| - 1].content| > maximum)
  {
    hide EndOf, ContentBytes, KeptBefore;
    NothingKept(lines, used, maximum);
    if lines == [] {
    } else {
      var init, last := lines[..|lines| - 1], lines[|lines| - 1];
      assert init + [last] == lines;
      OneMoreBefore(init, last, used, maximum);
      if used + |last.content| <= maximum {
        KeptBeforeIsNearest(init, used + |last.content|, maximum);
        EndSnoc(KeptBefore(init, used + |last.content|, maximum), init, last);
        ContentSnoc(KeptBefore(init, used + |last.content|, maximum), last);
      }
    }
  }

  lemma OneMoreBefore(init: seq<ContextLine>, last: ContextLine, used: nat, maximum: nat)
    ensures KeptBefore(init + [last], used, maximum)
         == if used + |last.content| > maximum then [] else KeptBefore(init, used + |last.content|, maximum) + [last]
  {
    assert (init + [last])[..|init|] == init;
  }

  lemma ContentSnoc(kept: seq<ContextLine>, last: ContextLine)
    ensures ContentBytes(kept + [last]) == ContentBytes(kept) + |last.content|
  {
    assert (kept + [last])[..|kept|] == kept;
  }

  lemma NothingKept(lines: seq<ContextLine>, used: nat, maximum: nat)
    ensures EndOf([], lines) && ContentBytes([]) == 0 && KeptBefore([], used, maximum) == []
  {
  }

  /** The nearest lines behind the match fit, and one more would not. */
  lemma {:induction false} KeptAfterIsNearest(lines: seq<ContextLine>, used: nat, maximum: nat)
    requires used <= maximum
    ensures var kept := KeptAfter(lines, used, maximum);
            && |kept| <= |lines| && kept == lines[..|kept|]
            && used + ContentBytes(kept) <= maximum
            && (|kept| < |lines| ==> used + ContentBytes(kept) + |lines[|kept|].content| > maximum)
    decreases |lines|
  {
    hide ContentBytes;
    NothingKept(lines, used, maximum);
    if lines == [] || used + |lines[0].content| > maximum {
    } else {
      var first, rest := lines[0], lines[1..];
      KeptAfterIsNearest(rest, used + |first.content|, maximum);
      OneMoreAfter(first, rest, used, maximum);
      assert lines == [first] + rest;
    }
  }

  lemma OneMoreAfter(first: ContextLine, rest: seq<ContextLine>, used: nat, maximum: nat)
    requires used + |first.content| <= maximum
    ensures var more := KeptAfter(rest, used + |first.content|, maximum);
            && KeptAfter([first] + rest, used, maximum) == [first] + more
            && ContentBytes([first] + more) == |first.content| + ContentBytes(more)
  {
    assert ([first] + rest)[1..] == rest;
    ContentAppend([first], KeptAfter(rest, used + |first.content|, maximum));
    OneLine(first);
  }

  // ---------- numbers ----------

  /** The lines are numbered from `first` on. */
  ghost predicate Numbered(lines: seq<ContextLine>, first: int) {
    forall i :: 0 <= i < |lines| ==> lines[i].lineNumber == first + i
  }

  /** None of the lines is the match line, and each fits. */
  ghost predicate Plain(lines: seq<ContextLine>, maximum: nat) {
    forall i :: 0 <= i < |lines| ==> !lines[i].isMatchLine && |lines[i].content| <= maximum
  }

  lemma {:induction false} ShownNumbers(window: seq<Byte>, ranges: seq<Range>, first: nat, maximum: nat)
    requires ContextLines.Inside(window, ranges)
    ensures Numbered(ShowRanges(window, ranges, first, maximum), first)
    ensures Plain(ShowRanges(window, ranges, first, maximum), maximum)
  {
    hide ContextLineFromBytes;
    if ranges == [] {
    } else {
      var last := |ranges| - 1;
      ShownNumbers(window, ranges[..last], first, maximum);
      LineBeforeFits(first + last, window[ranges[last].start..ranges[last].end], maximum);
    }
  }

  lemma LineBeforeFits(lineNumber: nat, bytes: seq<Byte>, maximum: nat)
    ensures var line := ContextLineFromBytes(lineNumber, bytes, maximum);
            line.lineNumber == lineNumber && !line.isMatchLine && |line.content| <= maximum
  {
    hide BoundedText, Utf8.Lossy, Utf8.Valid;
    var display := ScanSpec.StripCarriageReturn(bytes, true);
    var preview := display[..Min(|display|, maximum)];
    Utf8.LossyIsValid(preview);
    ContextFacts.BoundedTextFits(Utf8.Lossy(preview), maximum, None);
  }

  // ---------- the lines behind the match ----------

  /** The line with index `i` of `s`, when there is one. */
  function NthLine(s: seq<Byte>, i: nat): Option<seq<Byte>>
    decreases i
  {
    if s == [] then None
    else
      var n := NewlineIndex(s);
      if i == 0 then Some(s[..n])
      else if n == |s| then None
      else NthLine(s[n + 1..], i - 1)
  }

  function ShownAfter(line: seq<Byte>, lineNumber: nat, maximum: nat): ContextLine {
    IntoContextLine(RawLine(Visible(line, 0, maximum), 0, |line|), lineNumber, false, maximum, None)
  }

  ghost predicate AreNextLines(lines: seq<ContextLine>, rest: seq<Byte>, number: nat, maximum: nat) {
    forall i :: 0 <= i < |lines| ==>
      NthLine(rest, i).Some? && lines[i] == ShownAfter(NthLine(rest, i).value, number + i, maximum)
  }

  /** What is left behind the first line. */
  function BehindFirst(rest: seq<Byte>): seq<Byte> {
    From(rest, Min(NewlineIndex(rest) + 1, |rest|))
  }

  /** What is left behind the first `i` lines. */
  function BehindLines(rest: seq<Byte>, i: nat): (behind: seq<Byte>)
    ensures |behind| <= |rest|
    decreases i
  {
    if i == 0 then rest else BehindLines(BehindFirst(rest), i - 1)
  }

  /** There is a line with index `i`, and it ends, line feed included, within the scan budget. */
  predicate EndsWithin(rest: seq<Byte>, budget: nat, i: nat) {
    var behind := BehindLines(rest, i);
    behind != [] && |rest| - |behind| + NewlineIndex(behind) < budget
  }

  lemma NthNext(rest: seq<Byte>, i: nat)
    requires rest != []
    ensures NthLine(rest, 0) == Some(rest[..NewlineIndex(rest)])
    ensures i > 0 ==> NthLine(rest, i) == NthLine(BehindFirst(rest), i - 1)
  {
  }

  lemma NextLinesCons(rest: seq<Byte>, line: ContextLine, more: seq<ContextLine>, number: nat, maximum: nat)
    requires rest != [] && line == ShownAfter(rest[..NewlineIndex(rest)], number, maximum)
    requires AreNextLines(more, BehindFirst(rest), number + 1, maximum)
    ensures AreNextLines([line] + more, rest, number, maximum)
  {
    hide ShownAfter, NewlineIndex, NthLine, BehindFirst;
    var lines := [line] + more;
    forall i: nat | i < |lines|
      ensures NthLine(rest, i).Some? && lines[i] == ShownAfter(NthLine(rest, i).value, number + i, maximum)
    {
      NthNext(rest, i);
      if i > 0 {
        assert lines[i] == more[i - 1];
        assert number + 1 + (i - 1) == number + i;
      }
    }
  }

  /** A line read without looking for a keyword. */
  lemma PlainLine(rest: seq<Byte>, budget: nat, maximum: nat)
    ensures ReadLine(rest, budget, maximum, None).Ok?
    ensures var step := ReadLine(rest, budget, maximum, None).value;
            match step.read
            case Eof => rest == [] && step.consumed == 0
            case BudgetExhausted => step.consumed == budget
            case Complete(raw) =>
              && rest != [] && step.consumed <= |rest| && From(rest, step.consumed) == BehindFirst(rest)
              && step.consumed + |BehindFirst(rest)| == |rest|
              && raw == RawLine(Visible(rest[..NewlineIndex(rest)], 0, maximum), 0, |rest[..NewlineIndex(rest)]|)
  {
    hide NewlineIndex, Visible;
  }

  /**
   The lines behind the match are the next lines of the file, in order: as many as were asked for, are there and
   end within the scan budget. They are marked truncated exactly when another was asked for and the budget left
   does not reach behind the next line feed; then the whole budget counts as scanned.
   */
  lemma {:induction false} AfterIsExact(rest: seq<Byte>, budget: nat, count: nat, number: nat, maximum: nat)
    requires ReadAfter(rest, budget, count, number, maximum).Ok?
    ensures var r := ReadAfter(rest, budget, count, number, maximum).value;
            var k, behind := |r.lines|, BehindLines(rest, |r.lines|);
            var used := |rest| - |behind|;
            && k <= count && AreNextLines(r.lines, rest, number, maximum) && used <= budget
            && (forall i :: 0 <= i < k ==> EndsWithin(rest, budget, i)) && (k < count ==> !EndsWithin(rest, budget, k))
            && (r.truncated <==> k < count && budget - used <= NewlineIndex(behind))
            && r.bytesScanned == if r.truncated then budget else used
    decreases count
  {
    hide ReadLine, IntoContextLine, AreNextLines, NewlineIndex, BehindFirst, From;
    PlainLine(rest, budget, maximum);
    NoNextLines(rest, number, maximum);
    var step := ReadLine(rest, budget, maximum, None).value;
    if count == 0 || !step.read.Complete? {
      NotComplete(rest, budget, maximum);
    } else {
      var used, behind := step.consumed, BehindFirst(rest);
      AfterIsExact(behind, budget - used, count - 1, number + 1, maximum);
      var more := ReadAfter(behind, budget - used, count - 1, number + 1, maximum).value;
      NextLinesCons(rest, IntoContextLine(step.read.line, number, false, maximum, None), more.lines, number, maximum);
      CompleteWithin(rest, budget, maximum);
      forall i | 0 <= i < |more.lines| + 1
        ensures EndsWithin(rest, budget, i)
      {
        if i > 0 {
          assert EndsWithin(behind, budget - used, i - 1);
        }
      }
    }
  }

  /** No line is read to its end exactly when the first one does not end within the budget. */
  lemma NotComplete(rest: seq<Byte>, budget: nat, maximum: nat)
    ensures var read := ReadLine(rest, budget, maximum, None).value.read;
            && (!read.Complete? <==> !EndsWithin(rest, budget, 0))
            && (read.BudgetExhausted? <==> budget <= NewlineIndex(rest))
  {
    hide NewlineIndex, Visible;
  }

  lemma CompleteWithin(rest: seq<Byte>, budget: nat, maximum: nat)
    requires ReadLine(rest, budget, maximum, None).value.read.Complete?
    ensures EndsWithin(rest, budget, 0)
  {
    hide NewlineIndex, Visible;
  }

  /** Nothing stands behind the first `i` lines exactly when there is no line with index `i`. */
  lemma {:induction false} NothingBehind(rest: seq<Byte>, i: nat)
    ensures BehindLines(rest, i) == [] <==> NthLine(rest, i).None?
    decreases i
  {
    hide NewlineIndex, NthLine, BehindFirst;
    if rest == [] {
      NothingBehindNothing(i);
    } else if i == 0 {
      NthNext(rest, 0);
    } else {
      NothingBehind(BehindFirst(rest), i - 1);
      NthNext(rest, i);
    }
  }

  lemma {:induction false} NothingBehindNothing(i: nat)
    ensures BehindLines([], i) == [] && NthLine([], i).None?
  {
    if i == 0 {
    } else {
      assert BehindFirst([]) == [];
      NothingBehindNothing(i - 1);
    }
  }

  lemma NoNextLines(rest: seq<Byte>, number: nat, maximum: nat)
    ensures AreNextLines([], rest, number, maximum)
    ensures rest == [] ==> NthLine(rest, 0).None?
  {
  }

  lemma AfterNumbers(lines: seq<ContextLine>, rest: seq<Byte>, number: nat, maximum: nat)
    requires AreNextLines(lines, rest, number, maximum)
    ensures Numbered(lines, number) && Plain(lines, maximum)
  {
    hide NthLine;
    forall i | 0 <= i < |lines|
      ensures lines[i].lineNumber == number + i && !lines[i].isMatchLine && |lines[i].content| <= maximum
    {
      AfterLineFits(NthLine(rest, i).value, number + i, maximum);
    }
  }

  lemma AfterLineFits(line: seq<Byte>, lineNumber: nat, maximum: nat)
    ensures var shown := ShownAfter(line, lineNumber, maximum);
            shown.lineNumber == lineNumber && !shown.isMatchLine && |shown.content| <= maximum
  {
    hide BoundedText, Utf8.Lossy, Utf8.Valid;
    ContextFacts.ShownFits(RawLine(Visible(line, 0, maximum), 0, |line|), lineNumber, false, maximum, None);
  }

  // ---------- what is scanned behind the match ----------

  /** The scan budget left behind `n` lines does not reach behind the next line feed. */
  predicate BudgetEnds(rest: seq<Byte>, budget: nat, n: nat) {
    budget <= |rest| - |BehindLines(rest, n)| + NewlineIndex(BehindLines(rest, n))
  }

  /**
   From the match line on `n` lines are read: those that were asked for, are there and end within the scan budget.
   Scanned are these lines with their line feeds, or the whole budget when it ends before the next one does.
   */
  ghost predicate ScansLines(rest: seq<Byte>, budget: nat, asked: nat, n: nat, bytes: nat) {
    && 0 < n <= asked + 1
    && (forall i :: 0 <= i < n ==> EndsWithin(rest, budget, i))
    && (n <= asked ==> !EndsWithin(rest, budget, n))
    && bytes == if n <= asked && BudgetEnds(rest, budget, n) then budget else |rest| - |BehindLines(rest, n)|
  }

  /** Reading the match line leaves the lines behind it and the rest of the scan budget. */
  lemma ForwardParts(data: seq<Byte>, reference: MatchReferenceData, requested: nat, limits: ContextReadLimits)
    requires reference.Valid() && ReadForward(data, reference, requested, limits).Ok?
    ensures var rest := RestFrom(data, reference.lineStartOffset);
            var behind, consumed := BehindFirst(rest), |rest| - |BehindFirst(rest)|;
            && rest != [] && NewlineIndex(rest) < limits.maxForwardScanBytes && consumed <= limits.maxForwardScanBytes
            && ReadAfter(behind, limits.maxForwardScanBytes - consumed, requested, reference.lineNumber + 1,
                         limits.maxLineBytes)
               == Ok(ReadForward(data, reference, requested, limits).value.after)
            && ReadForward(data, reference, requested, limits).value.bytesScanned
               == consumed + ReadForward(data, reference, requested, limits).value.after.bytesScanned
            && ReadForward(data, reference, 0, limits).Ok?
            && ReadForward(data, reference, 0, limits).value.matchLine
               == ReadForward(data, reference, requested, limits).value.matchLine
  {
    hide IntoContextLine, Visible, MatchReferenceData.Valid, NewlineIndex;
  }

  lemma ForwardScans(data: seq<Byte>, reference: MatchReferenceData, requested: nat, limits: ContextReadLimits)
    requires reference.Valid() && ReadForward(data, reference, requested, limits).Ok?
    ensures var forward := ReadForward(data, reference, requested, limits).value;
            ScansLines(RestFrom(data, reference.lineStartOffset), limits.maxForwardScanBytes, requested,
                       |forward.after.lines| + 1, forward.bytesScanned)
  {
    hide ReadForward, ReadAfter, MatchReferenceData.Valid, AreNextLines, BehindFirst, BehindLines, NewlineIndex;
    var rest, budget := RestFrom(data, reference.lineStartOffset), limits.maxForwardScanBytes;
    ForwardParts(data, reference, requested, limits);
    var behind := BehindFirst(rest);
    var consumed, forward := |rest| - |behind|, ReadForward(data, reference, requested, limits).value;
    AfterIsExact(behind, budget - consumed, requested, reference.lineNumber + 1, limits.maxLineBytes);
    var k := |forward.after.lines|;
    OneLineFurther(rest, k);
    forall i | 0 <= i <= k
      ensures EndsWithin(rest, budget, i)
    {
      if i == 0 {
        NothingSkipped(rest);
      } else {
        OneLineFurther(rest, i - 1);
        assert EndsWithin(behind, budget - consumed, i - 1);
      }
    }
  }

  lemma OneLineFurther(rest: seq<Byte>, i: nat)
    ensures BehindLines(rest, i + 1) == BehindLines(BehindFirst(rest), i)
  {
  }

  lemma NothingSkipped(rest: seq<Byte>)
    ensures BehindLines(rest, 0) == rest
  {
  }

  // ---------- the whole reply ----------

  /** One match line with the right number, its neighbours numbered consecutively, all within the budget. */
  ghost predicate AroundMatch(outcome: ContextReadOutcome, reference: MatchReferenceData, limits: ContextReadLimits,
                              at: nat)
  {
    && at < |outcome.lines|
    && outcome.startLine + at == reference.lineNumber
    && Numbered(outcome.lines, outcome.startLine)
    && outcome.endLine == outcome.startLine + |outcome.lines| - 1
    && (forall i :: 0 <= i < |outcome.lines| ==> (outcome.lines[i].isMatchLine <==> i == at))
    && ContextFacts.HoldsKeyword(outcome.lines[at].content, reference.keyword, reference.caseSensitive)
    && (forall i :: 0 <= i < |outcome.lines| ==> |outcome.lines[i].content| <= limits.maxLineBytes)
    && outcome.returnedContentBytes == ContentBytes(outcome.lines) <= limits.maxReturnedContentBytes
    && outcome.bytesScanned <= limits.maxBeforeScanBytes + 1 + limits.maxForwardScanBytes
  }

  lemma ForwardFacts(data: seq<Byte>, reference: MatchReferenceData, requested: nat, limits: ContextReadLimits)
    requires reference.Valid() && Utf8.Valid(reference.keyword)
    requires ReadForward(data, reference, requested, limits).Ok?
    ensures var forward := ReadForward(data, reference, requested, limits).value;
            && forward.matchLine.lineNumber == reference.lineNumber && forward.matchLine.isMatchLine
            && |forward.matchLine.content| <= limits.maxLineBytes
            && ContextFacts.HoldsKeyword(forward.matchLine.content, reference.keyword, reference.caseSensitive)
            && Numbered(forward.after.lines, reference.lineNumber + 1)
               && Plain(forward.after.lines, limits.maxLineBytes)
            && |forward.after.lines| <= requested
            && forward.bytesScanned <= limits.maxForwardScanBytes
  {
    hide ReadLine, ReadAfter, IntoContextLine, Utf8.Valid, ContextFacts.HoldsKeyword, AreNextLines, Numbered, Plain;
    var rest, spec := RestFrom(data, reference.lineStartOffset), SpecOf(reference).value;
    var step := ReadLine(rest, limits.maxForwardScanBytes, limits.maxLineBytes, Some(spec)).value;
    ContextFacts.MatchLineRead(rest, limits.maxForwardScanBytes, limits.maxLineBytes, spec, reference.lineNumber);
    MatchLineNumber(step.read.line, reference.lineNumber, limits.maxLineBytes, NeedleOf(reference));
    var behind := From(rest, step.consumed);
    AfterIsExact(behind, limits.maxForwardScanBytes - step.consumed, requested, reference.lineNumber + 1,
                 limits.maxLineBytes);
    AfterNumbers(ReadForward(data, reference, requested, limits).value.after.lines, behind, reference.lineNumber + 1,
                 limits.maxLineBytes);
  }

  lemma MatchLineNumber(raw: RawLine, lineNumber: nat, maximum: nat, needle: Option<Needle>)
    ensures var line := IntoContextLine(raw, lineNumber, true, maximum, needle);
            line.lineNumber == lineNumber && line.isMatchLine
  {
    hide BoundedText, Utf8.Lossy, Utf8.Valid;
  }

  lemma BeforeFacts(data: seq<Byte>, reference: MatchReferenceData, requested: nat, limits: ContextReadLimits)
    requires limits.maxBeforeScanBytes > 0 && ReadBefore(data, reference, requested, limits).Ok?
    ensures var before := ReadBefore(data, reference, requested, limits).value;
            && Numbered(before.lines, reference.lineNumber - |before.lines|) && Plain(before.lines, limits.maxLineBytes)
            && |before.lines| <= reference.lineNumber && |before.lines| <= requested
            && before.bytesScanned == ContextLines.BytesBefore(reference, requested, limits)
  {
    hide BeforeInWindow, Numbered, Plain;
    var start := WindowStart(reference, limits);
    if requested > 0 && reference.lineStartOffset > 0 {
      WindowFacts(data[start..reference.lineStartOffset], start == 0 || data[start - 1] == LF, start,
                  reference.lineNumber, requested, limits.maxLineBytes);
    } else {
      NoneNumbered(reference.lineNumber, limits.maxLineBytes);
    }
  }

  lemma WindowFacts(window: seq<Byte>, aligned: bool, windowStart: nat, lineNumber: nat, requested: nat, maximum: nat)
    requires BeforeInWindow(window, aligned, windowStart, lineNumber, requested, maximum).Ok?
    ensures var before := BeforeInWindow(window, aligned, windowStart, lineNumber, requested, maximum).value;
            && Numbered(before.lines, lineNumber - |before.lines|) && Plain(before.lines, maximum)
            && |before.lines| <= lineNumber && |before.lines| <= requested
            && before.bytesScanned == |window| + if windowStart == 0 then 0 else 1
  {
    hide ShowRanges, LineRanges, FullStart, Numbered, Plain;
    var ranges := Last(LineRanges(window, FullStart(window, aligned), |window|), requested);
    ShownNumbers(window, ranges, lineNumber - |ranges|, maximum);
  }

  lemma NoneNumbered(first: int, maximum: nat)
    ensures Numbered([], first) && Plain([], maximum)
  {
  }

  lemma NumberedEnd(kept: seq<ContextLine>, lines: seq<ContextLine>, behind: int, maximum: nat)
    requires EndOf(kept, lines) && Numbered(lines, behind - |lines|) && Plain(lines, maximum)
    ensures Numbered(kept, behind - |kept|) && Plain(kept, maximum)
  {
  }

  lemma NumberedStart(kept: seq<ContextLine>, lines: seq<ContextLine>, first: int, maximum: nat)
    requires |kept| <= |lines| && kept == lines[..|kept|] && Numbered(lines, first) && Plain(lines, maximum)
    ensures Numbered(kept, first) && Plain(kept, maximum)
  {
  }

  /** Lines, the match line and more lines, put together. */
  lemma Together(before: seq<ContextLine>, matchLine: ContextLine, after: seq<ContextLine>, maximum: nat)
    requires Numbered(before, matchLine.lineNumber - |before|) && Plain(before, maximum)
    requires Numbered(after, matchLine.lineNumber + 1) && Plain(after, maximum)
    requires matchLine.isMatchLine && |matchLine.content| <= maximum
    ensures var lines := before + [matchLine] + after;
            && Numbered(lines, matchLine.lineNumber - |before|) && lines[|before|] == matchLine
            && lines[0].lineNumber == matchLine.lineNumber - |before|
            && lines[|lines| - 1].lineNumber == matchLine.lineNumber + |after|
            && (forall i :: 0 <= i < |lines| ==> (lines[i].isMatchLine <==> i == |before|))
            && (forall i :: 0 <= i < |lines| ==> |lines[i].content| <= maximum)
            && ContentBytes(lines) == |matchLine.content| + ContentBytes(before) + ContentBytes(after)
  {
    hide ContentBytes;
    ContentAppend(before + [matchLine], after);
    ContentAppend(before, [matchLine]);
    OneLine(matchLine);
  }

  lemma OneLine(line: ContextLine)
    ensures ContentBytes([line]) == |line.content|
  {
    assert [line][..0] == [];
  }

  /** A shown line was cut. */
  ghost predicate SomeCut(lines: seq<ContextLine>) {
    exists line :: line in lines && line.contentTruncated
  }

  lemma CutIsSeen(lines: seq<ContextLine>)
    ensures AnyTruncated(lines) <==> SomeCut(lines)
  {
    if SomeCut(lines) {
      var line :| line in lines && line.contentTruncated;
      var i :| 0 <= i < |lines| && lines[i] == line;
    }
  }

  /** The kept lines are the nearest ones on both sides, and one more on either side would not fit. */
  ghost predicate KeepsNearest(outcome: ContextReadOutcome, before: BeforeRead, forward: ForwardRead, at: nat,
                               maximum: nat)
  {
    && at < |outcome.lines| && outcome.lines[at] == forward.matchLine
    && EndOf(outcome.lines[..at], before.lines)
    && outcome.lines[at + 1..] <= forward.after.lines
    && NoMoreBefore(outcome.lines[..at], before.lines, |forward.matchLine.content|, maximum)
    && NoMoreAfter(|outcome.lines| - at - 1, forward.after.lines, outcome.returnedContentBytes, maximum)
    && (outcome.beforeTruncated <==> before.truncated || at < |before.lines|)
    && (outcome.afterTruncated <==> forward.after.truncated || |outcome.lines| - at - 1 < |forward.after.lines|)
    && (outcome.truncated <==> outcome.beforeTruncated || outcome.afterTruncated || SomeCut(outcome.lines))
  }

  predicate NoMoreBefore(kept: seq<ContextLine>, lines: seq<ContextLine>, used: nat, maximum: nat) {
    |kept| < |lines| ==> used + ContentBytes(kept) + |lines[|lines| - |kept| - 1].content| > maximum
  }

  predicate NoMoreAfter(kept: nat, lines: seq<ContextLine>, used: nat, maximum: nat) {
    kept < |lines| ==> used + |lines[kept].content| > maximum
  }

  /**
   A reply is a run of consecutive lines of the file around one match line that shows the keyword; the other
   lines are the nearest ones that were read, and the counters are exact and within every budget.
   */
  lemma ReplyIsExact(data: seq<Byte>, fileSize: nat, reference: MatchReferenceData, beforeLines: nat, afterLines: nat,
                     limits: ContextReadLimits) returns (at: nat, read: nat)
    requires Utf8.Valid(reference.keyword)
    requires ReadContext(data, fileSize, reference, beforeLines, afterLines, limits).Ok?
    ensures at <= beforeLines
    ensures AroundMatch(ReadContext(data, fileSize, reference, beforeLines, afterLines, limits).value, reference,
                        limits, at)
    ensures KeepsNearest(ReadContext(data, fileSize, reference, beforeLines, afterLines, limits).value,
                         ReadBefore(data, reference, beforeLines, limits).value,
                         ReadForward(data, reference, afterLines, limits).value, at, limits.maxReturnedContentBytes)
    ensures var outcome := ReadContext(data, fileSize, reference, beforeLines, afterLines, limits).value;
            var before := ContextLines.BytesBefore(reference, beforeLines, limits);
            && before <= outcome.bytesScanned
            && ScansLines(RestFrom(data, reference.lineStartOffset), limits.maxForwardScanBytes, afterLines, read,
                          outcome.bytesScanned - before)
  {
    hide ReadBefore, ReadForward, Assemble, MatchReferenceData.Valid, Utf8.Valid, AroundMatch, KeepsNearest, Numbered,
         Plain, ContextFacts.HoldsKeyword, ScansLines;
    BeforeFacts(data, reference, beforeLines, limits);
    ForwardFacts(data, reference, afterLines, limits);
    ForwardScans(data, reference, afterLines, limits);
    var before, forward := ReadBefore(data, reference, beforeLines, limits).value,
        ReadForward(data, reference, afterLines, limits).value;
    at := AssembledIsExact(before, forward, reference, limits);
    read := |forward.after.lines| + 1;
    BytesAssembled(before, forward, limits.maxReturnedContentBytes);
  }

  lemma BytesAssembled(before: BeforeRead, forward: ForwardRead, maximum: nat)
    requires Assemble(before, forward, maximum).Ok?
    ensures Assemble(before, forward, maximum).value.bytesScanned == before.bytesScanned + forward.bytesScanned
  {
    hide KeptBefore, KeptAfter, ContentBytes, AnyTruncated;
  }

  /** What is put together from lines before the match, the match line and lines behind it. */
  lemma AssembledIsExact(before: BeforeRead, forward: ForwardRead, reference: MatchReferenceData,
                         limits: ContextReadLimits) returns (at: nat)
    requires Assemble(before, forward, limits.maxReturnedContentBytes).Ok?
    requires Numbered(before.lines, reference.lineNumber - |before.lines|) && Plain(before.lines, limits.maxLineBytes)
    requires before.bytesScanned <= limits.maxBeforeScanBytes + 1
    requires forward.matchLine.lineNumber == reference.lineNumber && forward.matchLine.isMatchLine
    requires |forward.matchLine.content| <= limits.maxLineBytes
    requires ContextFacts.HoldsKeyword(forward.matchLine.content, reference.keyword, reference.caseSensitive)
    requires Numbered(forward.after.lines, reference.lineNumber + 1) && Plain(forward.after.lines, limits.maxLineBytes)
    requires forward.bytesScanned <= limits.maxForwardScanBytes
    ensures at <= |before.lines|
    ensures AroundMatch(Assemble(before, forward, limits.maxReturnedContentBytes).value, reference, limits, at)
    ensures KeepsNearest(Assemble(before, forward, limits.maxReturnedContentBytes).value, before, forward, at,
                         limits.maxReturnedContentBytes)
  {
    hide Assemble, AroundMatch, KeepsNearest, ContextFacts.HoldsKeyword, Numbered, Plain;
    at := NearestAssembled(before, forward, limits.maxReturnedContentBytes);
    AroundAssembled(before, forward, reference, limits, at);
  }

  lemma NearestAssembled(before: BeforeRead, forward: ForwardRead, maximum: nat) returns (at: nat)
    requires Assemble(before, forward, maximum).Ok?
    ensures at == |KeptBefore(before.lines, |forward.matchLine.content|, maximum)| <= |before.lines|
    ensures KeepsNearest(Assemble(before, forward, maximum).value, before, forward, at, maximum)
  {
    hide KeptBefore, KeptAfter, ContentBytes, EndOf, AnyTruncated, SomeCut;
    var used := |forward.matchLine.content|;
    KeptBeforeIsNearest(before.lines, used, maximum);
    var keptBefore := KeptBefore(before.lines, used, maximum);
    KeptAfterIsNearest(forward.after.lines, used + ContentBytes(keptBefore), maximum);
    var keptAfter := KeptAfter(forward.after.lines, used + ContentBytes(keptBefore), maximum);
    EndIsShorter(keptBefore, before.lines);
    AroundMiddle(keptBefore, forward.matchLine, keptAfter);
    CutIsSeen(keptBefore + [forward.matchLine] + keptAfter);
    at := |keptBefore|;
  }

  lemma AroundAssembled(before: BeforeRead, forward: ForwardRead, reference: MatchReferenceData,
                        limits: ContextReadLimits, at: nat)
    requires Assemble(before, forward, limits.maxReturnedContentBytes).Ok?
    requires at == |KeptBefore(before.lines, |forward.matchLine.content|, limits.maxReturnedContentBytes)|
    requires Numbered(before.lines, reference.lineNumber - |before.lines|) && Plain(before.lines, limits.maxLineBytes)
    requires before.bytesScanned <= limits.maxBeforeScanBytes + 1
    requires forward.matchLine.lineNumber == reference.lineNumber && forward.matchLine.isMatchLine
    requires |forward.matchLine.content| <= limits.maxLineBytes
    requires ContextFacts.HoldsKeyword(forward.matchLine.content, reference.keyword, reference.caseSensitive)
    requires Numbered(forward.after.lines, reference.lineNumber + 1) && Plain(forward.after.lines, limits.maxLineBytes)
    requires forward.bytesScanned <= limits.maxForwardScanBytes
    ensures AroundMatch(Assemble(before, forward, limits.maxReturnedContentBytes).value, reference, limits, at)
  {
    hide KeptBefore, KeptAfter, ContentBytes, ContextFacts.HoldsKeyword, Numbered, Plain, EndOf, AnyTruncated;
    var maximum, used := limits.maxReturnedContentBytes, |forward.matchLine.content|;
    KeptBeforeIsNearest(before.lines, used, maximum);
    var keptBefore := KeptBefore(before.lines, used, maximum);
    KeptAfterIsNearest(forward.after.lines, used + ContentBytes(keptBefore), maximum);
    var keptAfter := KeptAfter(forward.after.lines, used + ContentBytes(keptBefore), maximum);
    NumberedEnd(keptBefore, before.lines, reference.lineNumber, limits.maxLineBytes);
    NumberedStart(keptAfter, forward.after.lines, reference.lineNumber + 1, limits.maxLineBytes);
    Together(keptBefore, forward.matchLine, keptAfter, limits.maxLineBytes);
  }

  lemma EndIsShorter(kept: seq<ContextLine>, lines: seq<ContextLine>)
    requires EndOf(kept, lines)
    ensures |kept| <= |lines|
  {
  }

  /** The match line always fits the content budget: that error is never returned. */
  lemma MatchAlwaysFits(data: seq<Byte>, fileSize: nat, reference: MatchReferenceData, beforeLines: nat,
                        afterLines: nat, limits: ContextReadLimits)
    requires Utf8.Valid(reference.keyword)
    ensures ReadContext(data, fileSize, reference, beforeLines, afterLines, limits)
            != Err(InvalidLimits(PreviewExceedsBudget))
  {
    hide ReadBefore, KeptBefore, KeptAfter, MatchReferenceData.Valid, Utf8.Valid, AnyTruncated, ReadLine, ReadAfter,
         IntoContextLine;
    if limits.Validate(beforeLines, afterLines).None? && reference.Valid() {
      ErrorsOfParts(data, reference, beforeLines, afterLines, limits);
      if ReadForward(data, reference, afterLines, limits).Ok? {
        ForwardFacts(data, reference, afterLines, limits);
      }
    }
  }

  /** Neither part of the read reports that error itself. */
  lemma ErrorsOfParts(data: seq<Byte>, reference: MatchReferenceData, beforeLines: nat, afterLines: nat,
                      limits: ContextReadLimits)
    requires reference.Valid()
    ensures ReadBefore(data, reference, beforeLines, limits) != Err(InvalidLimits(PreviewExceedsBudget))
    ensures ReadForward(data, reference, afterLines, limits) != Err(InvalidLimits(PreviewExceedsBudget))
  {
    hide ReadBefore, ReadLine, ReadAfter, IntoContextLine, MatchReferenceData.Valid;
    BeforeErrors(data, reference, beforeLines, limits);
    var rest, spec := RestFrom(data, reference.lineStartOffset), SpecOf(reference);
    LineErrors(rest, limits.maxForwardScanBytes, limits.maxLineBytes, spec);
    var step := ReadLine(rest, limits.maxForwardScanBytes, limits.maxLineBytes, spec);
    if step.Ok? && step.value.read.Complete? {
      AfterErrors(From(rest, step.value.consumed), limits.maxForwardScanBytes - step.value.consumed, afterLines,
                  reference.lineNumber + 1, limits.maxLineBytes);
    }
  }

  lemma BeforeErrors(data: seq<Byte>, reference: MatchReferenceData, requested: nat, limits: ContextReadLimits)
    ensures ReadBefore(data, reference, requested, limits) != Err(InvalidLimits(PreviewExceedsBudget))
  {
    hide LineRanges, ShowRanges, Last;
  }

  lemma LineErrors(rest: seq<Byte>, budget: nat, maximum: nat, spec: Option<MatchSpec>)
    ensures ReadLine(rest, budget, maximum, spec) != Err(InvalidLimits(PreviewExceedsBudget))
  {
    hide NewlineIndex, SpecAgrees, Visible;
  }

  lemma {:induction false} AfterErrors(rest: seq<Byte>, budget: nat, count: nat, number: nat, maximum: nat)
    ensures var r := ReadAfter(rest, budget, count, number, maximum);
            r.Err? ==> r.error == ContextReadError.CounterOverflow && number + count > U64_LIMIT
    decreases count
  {
    hide ReadLine, IntoContextLine, NewlineIndex, From;
    PlainLine(rest, budget, maximum);
    var step := ReadLine(rest, budget, maximum, None).value;
    if count == 0 || !step.read.Complete? {
    } else {
      AfterErrors(From(rest, step.consumed), budget - step.consumed, count - 1, number + 1, maximum);
    }
  }
}
