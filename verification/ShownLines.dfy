/**
 How one line is shown, said by its bytes: which part of it, where the part is cut, what becomes of a final carriage
 return, and when the reader is told.
 */
module ShownLines {
  import opened Wrappers
  import opened Bytes
  import opened QueryState
  import opened ContextSpec
  import ContextOutcome
  import ReplyLines
  import PageSpec
  import ScanSpec
  import Utf8

  // ---------- a line away from the match ----------

  /** The line without the carriage return that ends it. */
  function WithoutReturn(line: seq<Byte>): seq<Byte> {
    if line != [] && line[|line| - 1] as char == '\r' then line[..|line| - 1] else line
  }

  /** The first `maximum` bytes of the line, without a carriage return that ends the line. */
  function Beginning(line: seq<Byte>, maximum: nat): seq<Byte> {
    if |line| <= maximum then WithoutReturn(line) else line[..maximum]
  }

  /** `part` is the longest beginning of the text that has at most `maximum` bytes and ends at a char boundary. */
  predicate LongestBeginning(part: seq<Byte>, text: seq<Byte>, maximum: nat) {
    && |part| <= maximum && part <= text && Utf8.CharBoundary(text, |part|)
    && forall i :: |part| < i <= maximum && i <= |text| ==> !Utf8.CharBoundary(text, i)
  }

  /**
   A line away from the match shows the beginning of the line, decoded, and cut again where decoding made it too
   long; it is marked lossy exactly when decoding replaced something.
   */
  predicate ShowsBeginning(shown: ContextLine, line: seq<Byte>, number: nat, maximum: nat) {
    && LongestBeginning(shown.content, Utf8.Lossy(Beginning(line, maximum)), maximum)
    && (shown.contentLossy <==> Utf8.Lossy(Beginning(line, maximum)) != Beginning(line, maximum))
    && shown.lineNumber == number && shown.originalLineBytes == |line| && !shown.isMatchLine
  }

  /** What is shown of a text that is not cropped around a keyword. */
  lemma TextFromStart(text: seq<Byte>, maximum: nat)
    ensures LongestBeginning(BoundedText(text, maximum, None).0, text, maximum)
    ensures BoundedText(text, maximum, None).1 <==> |text| > maximum
  {
    hide Utf8.CharBoundary;
    assert Utf8.CharBoundary(text, 0) && Utf8.CharBoundary(text, |text|) by { EndsAreBoundaries(text); }
    if |text| > maximum {
      assert CeilBoundary(text, 0) == 0;
    }
  }

  lemma EndsAreBoundaries(text: seq<Byte>)
    ensures Utf8.CharBoundary(text, 0) && Utf8.CharBoundary(text, |text|)
  {
  }

  /** Behind the match: marked truncated exactly when the line or its text is too long. */
  lemma BehindIsShown(line: seq<Byte>, number: nat, maximum: nat)
    ensures var shown := ContextOutcome.ShownAfter(line, number, maximum);
            && ShowsBeginning(shown, line, number, maximum)
            && (shown.contentTruncated <==> |line| > maximum || |Utf8.Lossy(Beginning(line, maximum))| > maximum)
  {
    hide BoundedText, Utf8.Lossy, Utf8.Valid, LongestBeginning;
    var part := Beginning(line, maximum);
    Utf8.LossyFixesStrings(part);
    TextFromStart(Utf8.Lossy(part), maximum);
    assert Visible(line, 0, maximum) == if |line| <= maximum then line else line[..maximum];
  }

  /** Before the match: the same, but a carriage return that ends the line is not counted. */
  lemma BeforeIsShown(line: seq<Byte>, number: nat, maximum: nat)
    ensures var shown := ContextLineFromBytes(number, line, maximum);
            && ShowsBeginning(shown, line, number, maximum)
            && (shown.contentTruncated
                <==> |WithoutReturn(line)| > maximum || |Utf8.Lossy(Beginning(line, maximum))| > maximum)
  {
    hide BoundedText, Utf8.Lossy, Utf8.Valid, LongestBeginning;
    var part := Beginning(line, maximum);
    Utf8.LossyFixesStrings(part);
    TextFromStart(Utf8.Lossy(part), maximum);
    var display := WithoutReturn(line);
    assert display[..Min(|display|, maximum)] == part;
  }

  /** A valid line that fits is shown as it is. */
  lemma FittingLineIsShown(line: seq<Byte>, number: nat, maximum: nat)
    requires Utf8.Valid(line) && |line| <= maximum && (line != [] ==> line[|line| - 1] as char != '\r')
    ensures ContextLineFromBytes(number, line, maximum) == ContextLine(number, line, false, false, |line|, false)
    ensures ContextOutcome.ShownAfter(line, number, maximum) == ContextLine(number, line, false, false, |line|, false)
  {
    hide Utf8.Lossy, Utf8.Valid, ContextLineFromBytes, ContextOutcome.ShownAfter;
    BeforeIsShown(line, number, maximum);
    BehindIsShown(line, number, maximum);
    Utf8.LossyFixesStrings(line);
    WholeIsBoundary(line, maximum);
  }

  lemma WholeIsBoundary(text: seq<Byte>, maximum: nat)
    requires |text| <= maximum
    ensures forall part: seq<Byte> :: LongestBeginning(part, text, maximum) ==> part == text
  {
    hide Utf8.CharBoundary;
    EndsAreBoundaries(text);
  }

  // ---------- a line around its keyword ----------

  /** Room is kept before the keyword for half of what the maximum leaves beside it, or for all that stands there. */
  predicate Centred(start: nat, at: nat, keyword: seq<Byte>, maximum: nat) {
    && |keyword| <= maximum && start <= at
    && (if 2 * at < maximum - |keyword| then start == 0 else at - start == (maximum - |keyword|) / 2)
  }

  /**
   The scanner and the reader show the same window of a line: as many bytes as fit, from a start that centres the
   keyword.
   */
  lemma WindowIsCentred(query: ScanSpec.LineQuery, line: seq<Byte>, at: nat, position: ScanSpec.ScanPosition)
    returns (start: nat)
    requires query.Searchable() && at + |query.keyword| <= |line|
    ensures Centred(start, at, query.keyword, query.maxLineBytes) && start <= |line|
    ensures var m := ScanSpec.MatchAt(query, line, at, position);
            var part := Beginning(line[start..], query.maxLineBytes);
            && m == ScanSpec.ScanMatch(
                 lineNumber := position.lineNumber, lineStartOffset := position.byteOffset,
                 matchByteOffset := position.byteOffset + at, content := Utf8.Lossy(part),
                 contentTruncated := start > 0 || |line| - start > query.maxLineBytes,
                 contentLossy := Utf8.Lossy(part) != part, originalLineBytes := |line|)
  {
    hide Utf8.Lossy, Utf8.Valid;
    start := ScanSpec.PreviewStart(at, |query.keyword|, query.maxLineBytes);
    var rest, maximum := line[start..], query.maxLineBytes;
    var preview := ScanSpec.PreviewOf(query, line, at);
    assert preview == rest[..Min(|rest|, maximum)];
    assert ScanSpec.StripCarriageReturn(preview, start + |preview| == |line|) == Beginning(rest, maximum);
    Utf8.LossyFixesStrings(Beginning(rest, maximum));
  }

  /** Where a text with a keyword is cropped: around the leftmost occurrence, at char boundaries. */
  ghost predicate CroppedAt(text: seq<Byte>, maximum: nat, keyword: seq<Byte>, at: nat, start: nat, end: nat) {
    && start <= end <= |text| && end <= start + maximum
    && Utf8.CharBoundary(text, start) && Utf8.CharBoundary(text, end)
    && (forall i :: end < i <= start + maximum && i <= |text| ==> !Utf8.CharBoundary(text, i))
    && exists wanted :: Wanted(text, maximum, keyword, at, wanted, start)
  }

  /** The crop begins at the first char boundary from where the keyword is centred. */
  predicate Wanted(text: seq<Byte>, maximum: nat, keyword: seq<Byte>, at: nat, wanted: nat, start: nat) {
    && wanted <= start && Centred(wanted, at, keyword, maximum)
    && forall i :: wanted <= i < start && i <= |text| ==> !Utf8.CharBoundary(text, i)
  }

  lemma CropIsCentred(text: seq<Byte>, maximum: nat, needle: Needle, at: nat) returns (start: nat, end: nat)
    requires |text| > maximum >= |needle.keyword| > 0
    requires Leftmost(text, needle.keyword, needle.caseSensitive, at)
    ensures CroppedAt(text, maximum, needle.keyword, at, start, end)
    ensures BoundedText(text, maximum, Some(needle)) == (text[start..end], true)
  {
    hide Utf8.CharBoundary, FindFolded;
    LeftmostIsFound(text, needle.keyword, needle.caseSensitive, at);
    var wanted := CropStart(text, maximum, Some(needle));
    assert at + |needle.keyword| <= |text|;
    start := CeilBoundary(text, Min(wanted, |text|));
    end := PageSpec.FloorBoundary(text, Min(start + maximum, |text|));
    assert Wanted(text, maximum, needle.keyword, at, wanted, start);
  }

  // ---------- the match line ----------

  /**
   The match line of a reply: the window that centres the stored keyword, decoded; a text that decoding made too long
   is cropped around the first keyword in it.
   */
  lemma MatchLineIsShown(line: seq<Byte>, reference: MatchReferenceData, maximum: nat) returns (start: nat)
    requires reference.Valid() && 0 < |reference.keyword| <= maximum
    requires reference.matchByteOffset - reference.lineStartOffset + |reference.keyword| <= |line|
    ensures Centred(start, reference.matchByteOffset - reference.lineStartOffset, reference.keyword, maximum)
    ensures start <= |line|
    ensures var shown := ReplyLines.MatchRendering(line, reference, maximum);
            var part := Beginning(line[start..], maximum);
            && (shown.contentLossy <==> Utf8.Lossy(part) != part)
            && shown.lineNumber == reference.lineNumber && shown.originalLineBytes == |line| && shown.isMatchLine
            && (shown.contentTruncated
                <==> start > 0 || |line| - start > maximum || |Utf8.Lossy(part)| > maximum)
            && (|Utf8.Lossy(part)| <= maximum ==> shown.content == Utf8.Lossy(part))
            && (forall at: nat ::
                  |Utf8.Lossy(part)| > maximum
                  && Leftmost(Utf8.Lossy(part), reference.keyword, reference.caseSensitive, at) ==>
                    ShowsCrop(shown.content, Utf8.Lossy(part), maximum, reference.keyword, at))
  {
    hide Utf8.Lossy, Utf8.Valid, BoundedText, Leftmost, ValidKeyword, ValidRelativePath, ShowsCrop, Beginning, Visible,
         ScanSpec.StripCarriageReturn;
    var at := reference.matchByteOffset - reference.lineStartOffset;
    start := ScanSpec.PreviewStart(at, |reference.keyword|, maximum);
    VisibleIsBeginning(line, start, maximum);
    var part := Beginning(line[start..], maximum);
    var text, needle := Utf8.Lossy(part), Needle(reference.keyword, reference.caseSensitive);
    Utf8.LossyFixesStrings(part);
    ShortOrCut(text, maximum, Some(needle));
    forall at: nat | |text| > maximum && Leftmost(text, reference.keyword, reference.caseSensitive, at)
      ensures ShowsCrop(BoundedText(text, maximum, Some(needle)).0, text, maximum, reference.keyword, at)
    {
      CropIsShown(text, maximum, needle, at);
    }
  }

  /** What is kept of a line from `start` on, a final carriage return dropped. */
  lemma VisibleIsBeginning(line: seq<Byte>, start: nat, maximum: nat)
    requires start <= |line|
    ensures var preview := Visible(line, start, maximum);
            && |preview| == Min(maximum, |line| - start)
            && ScanSpec.StripCarriageReturn(preview, start + |preview| == |line|) == Beginning(line[start..], maximum)
  {
    var rest := line[start..];
    assert Visible(line, start, maximum) == rest[..Min(|rest|, maximum)];
  }

  ghost predicate ShowsCrop(content: seq<Byte>, text: seq<Byte>, maximum: nat, keyword: seq<Byte>, at: nat) {
    exists start: nat, end: nat :: CroppedAt(text, maximum, keyword, at, start, end) && content == text[start..end]
  }

  lemma ShortOrCut(text: seq<Byte>, maximum: nat, needle: Option<Needle>)
    ensures BoundedText(text, maximum, needle).1 <==> |text| > maximum
    ensures |text| <= maximum ==> BoundedText(text, maximum, needle).0 == text
  {
    hide CropStart, CeilBoundary, PageSpec.FloorBoundary;
  }

  lemma CropIsShown(text: seq<Byte>, maximum: nat, needle: Needle, at: nat)
    requires |text| > maximum >= |needle.keyword| > 0
    requires Leftmost(text, needle.keyword, needle.caseSensitive, at)
    ensures ShowsCrop(BoundedText(text, maximum, Some(needle)).0, text, maximum, needle.keyword, at)
  {
    hide BoundedText, Leftmost, CroppedAt;
    var start, end := CropIsCentred(text, maximum, needle, at);
    assert CroppedAt(text, maximum, needle.keyword, at, start, end);
  }
}
