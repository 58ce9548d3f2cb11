/**
 When the truncation flag behind the match is right: which reads say that lines are missing although every line of
 the file was returned.
 */
module ContextTruncation {
  import opened Wrappers
  import opened Bytes
  import opened Collections
  import opened QueryState
  import opened ContextSpec
  import opened ContextOutcome
  import ContextFacts
  import ContextLines
  import PageSpec
  import ScanSpec
  import Utf8

  // ---------- counting lines from the front ----------

  predicate EndsInLineFeed(s: seq<Byte>) {
    s == [] || s[|s| - 1] == LF
  }

  lemma CountStep(rest: seq<Byte>)
    ensures ScanSpec.LineCount(rest) == if rest == [] then 0 else 1 + ScanSpec.LineCount(BehindFirst(rest))
    ensures rest != [] ==> |BehindFirst(rest)| < |rest|
  {
    hide NewlineIndex;
  }

  lemma {:induction false} CountBehind(rest: seq<Byte>, i: nat)
    ensures ScanSpec.LineCount(BehindLines(rest, i)) == SaturatingSub(ScanSpec.LineCount(rest), i)
    decreases i
  {
    hide ScanSpec.LineCount, BehindFirst;
    CountStep(rest);
    if i == 0 {
    } else if rest == [] {
      NothingBehindNothing(i);
    } else {
      CountBehind(BehindFirst(rest), i - 1);
    }
  }

  lemma BehindFirstIsEnd(rest: seq<Byte>)
    ensures EndOf(BehindFirst(rest), rest)
  {
    hide NewlineIndex;
  }

  lemma {:induction false} BehindIsEnd(rest: seq<Byte>, i: nat)
    ensures EndOf(BehindLines(rest, i), rest)
    decreases i
  {
    hide EndOf, BehindFirst;
    if i == 0 {
      WholeIsEnd(rest);
    } else {
      BehindFirstIsEnd(rest);
      BehindIsEnd(BehindFirst(rest), i - 1);
      EndOfEnd(BehindLines(rest, i), BehindFirst(rest), rest);
    }
  }

  lemma WholeIsEnd(rest: seq<Byte>)
    ensures EndOf(rest, rest)
  {
  }

  lemma {:induction false} BehindOneMore(rest: seq<Byte>, i: nat)
    ensures BehindLines(rest, i + 1) == BehindFirst(BehindLines(rest, i))
    decreases i
  {
    hide BehindFirst;
    if i == 0 {
      assert BehindLines(BehindFirst(rest), 0) == BehindFirst(rest);
    } else {
      BehindOneMore(BehindFirst(rest), i - 1);
    }
  }

  /** An end of whole lines is whole lines; a last line that has its line feed makes them so. */
  lemma EndOfWholeLines(end: seq<Byte>, rest: seq<Byte>)
    requires EndOf(end, rest) && end != []
    ensures EndsInLineFeed(rest) <==> EndsInLineFeed(end)
    ensures EndsInLineFeed(rest) ==> NewlineIndex(end) < |end|
    ensures NewlineIndex(end) < |end| && BehindFirst(end) == [] ==> EndsInLineFeed(rest)
  {
    hide NewlineIndex;
    assert rest[|rest| - 1] == end[|end| - 1];
    if NewlineIndex(end) == |end| {
      assert end[|end| - 1] != LF;
    }
  }

  /** With exactly the budget the rest needs, the lines that end within it are those with a line feed. */
  lemma EndsExactly(rest: seq<Byte>, i: nat)
    ensures EndsWithin(rest, |rest|, i)
       <==> BehindLines(rest, i) != [] && NewlineIndex(BehindLines(rest, i)) < |BehindLines(rest, i)|
  {
    hide NewlineIndex;
  }

  // ---------- the flag of the read ----------

  /**
   The flag is spurious, set though every line of the file was read, exactly when the scan budget ends with the
   file, the file ends in a line feed, and more lines were asked for than there are.
   */
  lemma FlagIsSpurious(rest: seq<Byte>, budget: nat, count: nat, number: nat, maximum: nat)
    requires ReadAfter(rest, budget, count, number, maximum).Ok?
    ensures var r := ReadAfter(rest, budget, count, number, maximum).value;
            r.truncated && NthLine(rest, |r.lines|).None?
            <==> budget == |rest| && EndsInLineFeed(rest) && ScanSpec.LineCount(rest) < count
  {
    hide AreNextLines, ReadAfter, NthLine, EndsWithin, EndsInLineFeed, NewlineIndex;
    var k := |ReadAfter(rest, budget, count, number, maximum).value.lines|;
    AfterIsExact(rest, budget, count, number, maximum);
    NothingBehind(rest, k);
    NoLineFeedInNothing();
    CountBehind(rest, k);
    CountIsZero(BehindLines(rest, k));
    if budget == |rest| && ScanSpec.LineCount(rest) < count {
      if k < ScanSpec.LineCount(rest) && EndsInLineFeed(rest) {
        BehindIsEnd(rest, k);
        EndOfWholeLines(BehindLines(rest, k), rest);
        EndsExactly(rest, k);
        assert false;
      }
      if BehindLines(rest, k) == [] {
        AllReadIsWhole(rest, k);
      }
    }
  }

  lemma NoLineFeedInNothing()
    ensures NewlineIndex([]) == 0
  {
  }

  lemma CountIsZero(rest: seq<Byte>)
    ensures ScanSpec.LineCount(rest) == 0 <==> rest == []
  {
    CountStep(rest);
  }

  /** When every line ends within the bytes there are, the last one has its line feed. */
  lemma AllReadIsWhole(rest: seq<Byte>, k: nat)
    requires BehindLines(rest, k) == [] && forall i :: 0 <= i < k ==> EndsWithin(rest, |rest|, i)
    ensures EndsInLineFeed(rest) && k <= ScanSpec.LineCount(rest)
  {
    hide EndsWithin, NewlineIndex, BehindFirst, EndOf, ScanSpec.LineCount;
    if k == 0 {
    } else {
      CountBehind(rest, k - 1);
      CountIsZero(BehindLines(rest, k - 1));
      BehindOneMore(rest, k - 1);
      BehindIsEnd(rest, k - 1);
      EndsExactly(rest, k - 1);
      EndOfWholeLines(BehindLines(rest, k - 1), rest);
    }
  }

  // ---------- all lines behind the match ----------

  /** Every line of `rest` as the reply shows it. */
  function AllLines(rest: seq<Byte>, number: nat, maximum: nat): (lines: seq<ContextLine>)
    decreases |rest|
  {
    if rest == [] then []
    else
      assert |BehindFirst(rest)| < |rest|;
      [ShownAfter(rest[..NewlineIndex(rest)], number, maximum)] + AllLines(BehindFirst(rest), number + 1, maximum)
  }

  lemma {:induction false} AllLinesAreNext(rest: seq<Byte>, number: nat, maximum: nat)
    ensures |AllLines(rest, number, maximum)| == ScanSpec.LineCount(rest)
    ensures AreNextLines(AllLines(rest, number, maximum), rest, number, maximum)
    decreases |rest|
  {
    hide ShownAfter, NewlineIndex, BehindFirst, ScanSpec.LineCount, AreNextLines;
    CountStep(rest);
    if rest == [] {
      NoNextLines(rest, number, maximum);
    } else {
      AllLinesAreNext(BehindFirst(rest), number + 1, maximum);
      NextLinesCons(rest, ShownAfter(rest[..NewlineIndex(rest)], number, maximum),
                    AllLines(BehindFirst(rest), number + 1, maximum), number, maximum);
    }
  }

  lemma NextLinesUnique(a: seq<ContextLine>, b: seq<ContextLine>, rest: seq<Byte>, number: nat, maximum: nat)
    requires AreNextLines(a, rest, number, maximum) && AreNextLines(b, rest, number, maximum) && |a| == |b|
    ensures a == b
  {
    hide ShownAfter, NthLine;
  }

  /** As many lines are read as there are, or fewer. */
  lemma LinesThere(rest: seq<Byte>, lines: seq<ContextLine>, number: nat, maximum: nat)
    requires AreNextLines(lines, rest, number, maximum)
    ensures |lines| <= ScanSpec.LineCount(rest)
    ensures |lines| == ScanSpec.LineCount(rest) <==> NthLine(rest, |lines|).None?
  {
    hide ShownAfter, NthLine, BehindLines, ScanSpec.LineCount;
    CountBehind(rest, |lines|);
    CountIsZero(BehindLines(rest, |lines|));
    NothingBehind(rest, |lines|);
    if lines != [] {
      var last := |lines| - 1;
      assert NthLine(rest, last).Some?;
      NothingBehind(rest, last);
      CountBehind(rest, last);
      CountIsZero(BehindLines(rest, last));
    }
  }

  /** The budget keeps all lines exactly when their content fits. */
  lemma KeptAll(lines: seq<ContextLine>, used: nat, maximum: nat)
    requires used <= maximum
    ensures |KeptAfter(lines, used, maximum)| == |lines| <==> used + ContentBytes(lines) <= maximum
  {
    hide KeptAfter, ContentBytes;
    KeptAfterIsNearest(lines, used, maximum);
    var kept := KeptAfter(lines, used, maximum);
    if |kept| < |lines| {
      var next, later := lines[|kept|], lines[|kept| + 1..];
      assert lines == kept + ([next] + later);
      ContentAppend(kept, [next] + later);
      ContentAppend([next], later);
      OneLine(next);
    } else {
      assert lines[..|lines|] == lines;
    }
  }

  // ---------- the flag of the reply ----------

  /** The content bytes that the match line and the lines before it take. */
  function UsedBefore(data: seq<Byte>, reference: MatchReferenceData, beforeLines: nat, limits: ContextReadLimits): nat
    requires reference.Valid()
  {
    var before, alone := ReadBefore(data, reference, beforeLines, limits), ReadForward(data, reference, 0, limits);
    if before.Err? || alone.Err? then 0
    else
      var used := |alone.value.matchLine.content|;
      used + ContentBytes(KeptBefore(before.value.lines, used, limits.maxReturnedContentBytes))
  }

  /** The content of all lines behind the match fits the reply. */
  predicate AllFit(data: seq<Byte>, reference: MatchReferenceData, beforeLines: nat, limits: ContextReadLimits)
    requires reference.Valid()
  {
    var behind := BehindFirst(RestFrom(data, reference.lineStartOffset));
    UsedBefore(data, reference, beforeLines, limits)
    + ContentBytes(AllLines(behind, reference.lineNumber + 1, limits.maxLineBytes)) <= limits.maxReturnedContentBytes
  }

  /** The scan budget ends with the file, seen from the match line and from behind it. */
  lemma EndsWithFile(rest: seq<Byte>, budget: nat)
    requires rest != [] && NewlineIndex(rest) < budget && |rest| - |BehindFirst(rest)| <= budget
    ensures var behind := BehindFirst(rest);
            budget - (|rest| - |behind|) == |behind| && EndsInLineFeed(behind)
            <==> budget == |rest| && EndsInLineFeed(rest)
  {
    hide NewlineIndex;
    BehindFirstIsEnd(rest);
    if BehindFirst(rest) != [] {
      EndOfWholeLines(BehindFirst(rest), rest);
    }
  }

  /**
   A reply says that lines behind the match are missing although it holds every line of the file behind the match
   exactly when the scan budget is as long as what the file holds from the match line on, the file ends in a line
   feed, more lines were asked for than follow the match, and their content fits.
   */
  lemma ReplyFlagIsSpurious(data: seq<Byte>, fileSize: nat, reference: MatchReferenceData, beforeLines: nat,
                            afterLines: nat, limits: ContextReadLimits)
    requires Utf8.Valid(reference.keyword)
    requires ReadContext(data, fileSize, reference, beforeLines, afterLines, limits).Ok?
    ensures reference.Valid()
    ensures var outcome := ReadContext(data, fileSize, reference, beforeLines, afterLines, limits).value;
            var rest := RestFrom(data, reference.lineStartOffset);
            outcome.afterTruncated && outcome.endLine - reference.lineNumber == ScanSpec.LineCount(BehindFirst(rest))
            <==> && limits.maxForwardScanBytes == |rest| && EndsInLineFeed(rest)
                 && ScanSpec.LineCount(rest) <= afterLines && AllFit(data, reference, beforeLines, limits)
  {
    hide ReadBefore, ReadForward, ReadAfter, MatchReferenceData.Valid, Utf8.Valid, EndsInLineFeed, BehindFirst,
         AllLines, ContextFacts.HoldsKeyword, AreNextLines, NthLine, ContentBytes, KeptBefore, KeptAfter, Numbered,
         AnyTruncated, ScanSpec.LineCount;
    var rest := RestFrom(data, reference.lineStartOffset);
    var behind, number, maximum := BehindFirst(rest), reference.lineNumber + 1, limits.maxLineBytes;
    ForwardParts(data, reference, afterLines, limits);
    var left := limits.maxForwardScanBytes - (|rest| - |behind|);
    FlagIsSpurious(behind, left, afterLines, number, maximum);
    EndsWithFile(rest, limits.maxForwardScanBytes);
    CountStep(rest);
    AfterIsExact(behind, left, afterLines, number, maximum);
    var read := ReadAfter(behind, left, afterLines, number, maximum).value;
    LinesThere(behind, read.lines, number, maximum);
    ShownBehind(data, fileSize, reference, beforeLines, afterLines, limits);
    KeptAll(read.lines, UsedBefore(data, reference, beforeLines, limits), limits.maxReturnedContentBytes);
    AllLinesAreNext(behind, number, maximum);
    if |read.lines| == ScanSpec.LineCount(behind) {
      NextLinesUnique(read.lines, AllLines(behind, number, maximum), behind, number, maximum);
    }
  }

  /** How many lines a reply shows behind the match, and what its flag says. */
  lemma ShownBehind(data: seq<Byte>, fileSize: nat, reference: MatchReferenceData, beforeLines: nat, afterLines: nat,
                    limits: ContextReadLimits)
    requires Utf8.Valid(reference.keyword)
    requires ReadContext(data, fileSize, reference, beforeLines, afterLines, limits).Ok?
    ensures reference.Valid() && ReadForward(data, reference, afterLines, limits).Ok?
    ensures var outcome := ReadContext(data, fileSize, reference, beforeLines, afterLines, limits).value;
            var after := ReadForward(data, reference, afterLines, limits).value.after;
            var used := UsedBefore(data, reference, beforeLines, limits);
            var shown := |KeptAfter(after.lines, used, limits.maxReturnedContentBytes)|;
            && used <= limits.maxReturnedContentBytes && shown <= |after.lines|
            && outcome.endLine - reference.lineNumber == shown
            && (outcome.afterTruncated <==> after.truncated || shown < |after.lines|)
  {
    hide ReadContext, ReadBefore, ReadForward, Assemble, MatchReferenceData.Valid, Utf8.Valid, UsedBefore,
         ContextFacts.HoldsKeyword, Numbered, Plain, ContentBytes, KeptBefore, KeptAfter;
    ContextIsAssembled(data, fileSize, reference, beforeLines, afterLines, limits);
    UsedIs(data, reference, beforeLines, afterLines, limits);
    ForwardFacts(data, reference, afterLines, limits);
    AssembledBehind(ReadBefore(data, reference, beforeLines, limits).value,
                    ReadForward(data, reference, afterLines, limits).value, limits.maxReturnedContentBytes);
  }

  lemma ContextIsAssembled(data: seq<Byte>, fileSize: nat, reference: MatchReferenceData, beforeLines: nat,
                           afterLines: nat, limits: ContextReadLimits)
    requires ReadContext(data, fileSize, reference, beforeLines, afterLines, limits).Ok?
    ensures reference.Valid() && ReadBefore(data, reference, beforeLines, limits).Ok?
    ensures ReadForward(data, reference, afterLines, limits).Ok?
    ensures ReadContext(data, fileSize, reference, beforeLines, afterLines, limits)
         == Assemble(ReadBefore(data, reference, beforeLines, limits).value,
                     ReadForward(data, reference, afterLines, limits).value, limits.maxReturnedContentBytes)
  {
    hide ReadBefore, ReadForward, Assemble, MatchReferenceData.Valid;
  }

  lemma UsedIs(data: seq<Byte>, reference: MatchReferenceData, beforeLines: nat, afterLines: nat,
               limits: ContextReadLimits)
    requires reference.Valid() && ReadBefore(data, reference, beforeLines, limits).Ok?
    requires ReadForward(data, reference, afterLines, limits).Ok?
    ensures var before, matchLine := ReadBefore(data, reference, beforeLines, limits).value.lines,
                                     ReadForward(data, reference, afterLines, limits).value.matchLine;
            UsedBefore(data, reference, beforeLines, limits)
            == |matchLine.content|
                + ContentBytes(KeptBefore(before, |matchLine.content|, limits.maxReturnedContentBytes))
  {
    hide ReadBefore, ReadForward, ReadAfter, ContentBytes, KeptBefore, MatchReferenceData.Valid;
    ForwardParts(data, reference, afterLines, limits);
  }

  lemma AssembledBehind(before: BeforeRead, forward: ForwardRead, maximum: nat)
    requires Assemble(before, forward, maximum).Ok?
    requires Numbered(forward.after.lines, forward.matchLine.lineNumber + 1)
    ensures var outcome, matchBytes := Assemble(before, forward, maximum).value, |forward.matchLine.content|;
            var used := matchBytes + ContentBytes(KeptBefore(before.lines, matchBytes, maximum));
            var shown := |KeptAfter(forward.after.lines, used, maximum)|;
            && used <= maximum && shown <= |forward.after.lines|
            && outcome.endLine == forward.matchLine.lineNumber + shown
            && (outcome.afterTruncated <==> forward.after.truncated || shown < |forward.after.lines|)
  {
    hide ContentBytes, KeptBefore, KeptAfter, Numbered, AnyTruncated, EndOf;
    var matchBytes := |forward.matchLine.content|;
    KeptBeforeIsNearest(before.lines, matchBytes, maximum);
    var keptBefore := KeptBefore(before.lines, matchBytes, maximum);
    var used := matchBytes + ContentBytes(keptBefore);
    LastNumber(keptBefore, forward.matchLine, forward.after.lines, used, maximum);
  }

  lemma LastNumber(before: seq<ContextLine>, matchLine: ContextLine, read: seq<ContextLine>, used: nat, maximum: nat)
    requires Numbered(read, matchLine.lineNumber + 1) && used <= maximum
    ensures var kept := KeptAfter(read, used, maximum);
            var lines := before + [matchLine] + kept;
            |kept| <= |read| && lines[|lines| - 1].lineNumber == matchLine.lineNumber + |kept|
  {
    hide KeptAfter;
    KeptAfterIsNearest(read, used, maximum);
    var kept := KeptAfter(read, used, maximum);
    if kept != [] {
      assert kept[|kept| - 1] == read[|kept| - 1];
    }
  }

  // ---------- an input ----------

  /**
   A file of one line, read with exactly its two bytes of scan budget: the reply says that lines behind it are
   missing.
   */
  lemma EndOfFileIsTruncated()
    ensures var data: seq<Byte> := [97, LF];
            var reference := MatchReferenceData("s", "f", [[97]], FileIdentity(0, 0), 2, 1, 0, 0, [97], true);
            var limits := PageSpec.LimitsConfig(1, 2, 1, 8, 8, 1);
            var r := ReadContext(data, 2, reference, 0, 1, FromServiceLimits(limits));
            limits.Valid() && r.Ok? && |r.value.lines| == 1 && r.value.afterTruncated && NthLine(data, 1).None?
  {
    hide ReadForward, AnyTruncated;
    var data: seq<Byte> := [97, LF];
    var reference := MatchReferenceData("s", "f", [[97]], FileIdentity(0, 0), 2, 1, 0, 0, [97], true);
    OneLetterReference(reference);
    OneLineForward(data, reference, FromServiceLimits(PageSpec.LimitsConfig(1, 2, 1, 8, 8, 1)));
    assert data[2..] == [];
    ContextLines.SecondByteEnds(data);
  }

  lemma OneLineForward(data: seq<Byte>, reference: MatchReferenceData, limits: ContextReadLimits)
    requires data == [97, LF] && limits.maxForwardScanBytes == 2 && limits.maxLineBytes == 8
    requires reference == MatchReferenceData("s", "f", [[97]], FileIdentity(0, 0), 2, 1, 0, 0, [97], true)
    requires reference.Valid()
    ensures ReadForward(data, reference, 1, limits).Ok?
    ensures var forward := ReadForward(data, reference, 1, limits).value;
            forward.after == AfterRead([], 0, true) && |forward.matchLine.content| <= 8
  {
    hide IntoContextLine, MatchReferenceData.Valid;
    ContextLines.SecondByteEnds(data);
    assert RestFrom(data, 0) == data && data[2..] == [];
    assert ReadLine(data, 2, 8, SpecOf(reference)).Ok?;
    ContextFacts.ShownFits(ReadLine(data, 2, 8, SpecOf(reference)).value.read.line, 1, true, 8, NeedleOf(reference));
  }

  lemma OneLetterReference(reference: MatchReferenceData)
    requires reference == MatchReferenceData("s", "f", [[97]], FileIdentity(0, 0), 2, 1, 0, 0, [97], true)
    ensures reference.Valid()
  {
    assert ScanSpec.CharCount([97]) == 1 by {
      assert [97 as Byte][1..] == [];
    }
  }
}
