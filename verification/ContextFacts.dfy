/**
 What a context read guarantees: cropping keeps the keyword, the lines before the match are exactly the nearest
 whole lines, the assembled lines are consecutive and within budget, and a shown line agrees with the search.
 */
module ContextFacts {
  import opened Wrappers
  import opened Bytes
  import opened Collections
  import opened QueryState
  import opened ContextSpec
  import ScanSpec
  import PageSpec
  import Utf8

  // ---------- cropping ----------

  /** The keyword stands somewhere in the text. */
  ghost predicate HoldsKeyword(text: seq<Byte>, keyword: seq<Byte>, caseSensitive: bool) {
    exists i: nat :: OccursAt(text, keyword, caseSensitive, i)
  }

  lemma HeldAt(text: seq<Byte>, keyword: seq<Byte>, caseSensitive: bool, i: nat)
    requires OccursAt(text, keyword, caseSensitive, i)
    ensures HoldsKeyword(text, keyword, caseSensitive)
  {
    hide OccursAt;
  }

  lemma HeldIsFound(text: seq<Byte>, keyword: seq<Byte>, caseSensitive: bool)
    requires keyword != []
    ensures HoldsKeyword(text, keyword, caseSensitive) <==> FindFolded(text, keyword, caseSensitive).Some?
  {
    hide FindFolded, OccursAt;
    FindFoldedIsLeftmost(text, keyword, caseSensitive);
    if FindFolded(text, keyword, caseSensitive).Some? {
      assert OccursAt(text, keyword, caseSensitive, FindFolded(text, keyword, caseSensitive).value);
    }
  }

  /** A cut between two char boundaries of a string is a string. */
  lemma CutIsString(text: seq<Byte>, start: nat, end: nat)
    requires Utf8.Valid(text) && start <= end <= |text|
    requires Utf8.CharBoundary(text, start) && Utf8.CharBoundary(text, end)
    ensures Utf8.Valid(text[start..end])
  {
    hide Utf8.Valid;
    Utf8.BoundarySplits(text, end);
    var prefix := text[..end];
    assert Utf8.CharBoundary(prefix, start);
    Utf8.BoundarySplits(prefix, start);
    PartOfPart(text, 0, end, start, end);
    assert text[0..end] == prefix && prefix[start..end] == prefix[start..];
  }

  /** The shown text is never too long, is cut only when it has to be, and stays a string. */
  lemma BoundedTextFits(text: seq<Byte>, maximum: nat, needle: Option<Needle>)
    requires Utf8.Valid(text)
    ensures var (content, cut) := BoundedText(text, maximum, needle);
            |content| <= maximum && Utf8.Valid(content) && (cut <==> |text| > maximum) && (!cut ==> content == text)
  {
    hide Utf8.Valid, Utf8.CharBoundary, CropStart, CeilBoundary, PageSpec.FloorBoundary;
    if |text| > maximum {
      var start := CeilBoundary(text, Min(CropStart(text, maximum, needle), |text|));
      var end := PageSpec.FloorBoundary(text, Min(start + maximum, |text|));
      assert Utf8.CharBoundary(text, start) && start <= Min(start + maximum, |text|);
      assert start <= end <= start + maximum;
      CutIsString(text, start, end);
    }
  }

  /** Cropping keeps the whole keyword, wherever it stands and whatever its letter case. */
  lemma BoundedTextKeepsKeyword(text: seq<Byte>, maximum: nat, needle: Needle)
    requires Utf8.Valid(text) && Utf8.Valid(needle.keyword) && 0 < |needle.keyword| <= maximum
    requires HoldsKeyword(text, needle.keyword, needle.caseSensitive)
    ensures HoldsKeyword(BoundedText(text, maximum, Some(needle)).0, needle.keyword, needle.caseSensitive)
  {
    hide Utf8.Valid, FindFolded, HoldsKeyword;
    var keyword, caseSensitive := needle.keyword, needle.caseSensitive;
    if |text| > maximum {
      HeldIsFound(text, keyword, caseSensitive);
      FindFoldedIsLeftmost(text, keyword, caseSensitive);
      var at := FindFolded(text, keyword, caseSensitive).value;
      Utf8.KeywordOnBoundaries(text, keyword, caseSensitive, at);
      KeptBetween(text, maximum, needle, at);
    }
  }

  lemma KeptBetween(text: seq<Byte>, maximum: nat, needle: Needle, at: nat)
    requires |text| > maximum >= |needle.keyword| && FindFolded(text, needle.keyword, needle.caseSensitive) == Some(at)
    requires OccursAt(text, needle.keyword, needle.caseSensitive, at)
    requires Utf8.CharBoundary(text, at) && Utf8.CharBoundary(text, at + |needle.keyword|)
    ensures HoldsKeyword(BoundedText(text, maximum, Some(needle)).0, needle.keyword, needle.caseSensitive)
  {
    hide Utf8.CharBoundary, FindFolded, HoldsKeyword;
    var begin := CropStart(text, maximum, Some(needle));
    assert begin <= at && at + |needle.keyword| <= begin + maximum;
    var start := CeilBoundary(text, begin);
    var end := PageSpec.FloorBoundary(text, Min(start + maximum, |text|));
    assert start <= at && at + |needle.keyword| <= end;
    OccursInSlice(text, start, end, needle, at);
  }

  lemma OccursInSlice(text: seq<Byte>, start: nat, end: nat, needle: Needle, at: nat)
    requires start <= at && at + |needle.keyword| <= end <= |text|
    requires OccursAt(text, needle.keyword, needle.caseSensitive, at)
    ensures OccursAt(text[start..end], needle.keyword, needle.caseSensitive, at - start)
    ensures HoldsKeyword(text[start..end], needle.keyword, needle.caseSensitive)
  {
    var slice, i: nat, n := text[start..end], at - start, |needle.keyword|;
    var copy, same := text[at..at + n], slice[i..i + n];
    assert forall k :: 0 <= k < n ==> same[k] == copy[k];
    assert same == copy;
    HeldAt(slice, needle.keyword, needle.caseSensitive, i);
  }

  // ---------- the match line ----------

  lemma Fits(text: seq<Byte>, needle: Needle, at: nat)
    requires OccursAt(text, needle.keyword, needle.caseSensitive, at)
    ensures at + |needle.keyword| <= |text|
  {
  }

  /** Stripping a carriage return never touches a keyword that contains none. */
  lemma StripKeepsKeyword(preview: seq<Byte>, coversLineEnd: bool, needle: Needle, at: nat)
    requires CR !in needle.keyword && needle.keyword != []
             && OccursAt(preview, needle.keyword, needle.caseSensitive, at)
    ensures OccursAt(ScanSpec.StripCarriageReturn(preview, coversLineEnd), needle.keyword, needle.caseSensitive, at)
  {
    hide OccursAt;
    var shown, n := ScanSpec.StripCarriageReturn(preview, coversLineEnd), |needle.keyword|;
    Fits(preview, needle, at);
    OccursByByte(preview, needle.keyword, needle.caseSensitive, at);
    assert needle.keyword[n - 1] in needle.keyword;
    assert Fold(preview[at + (n - 1)], needle.caseSensitive) == Fold(needle.keyword[n - 1], needle.caseSensitive);
    OccursByByte(shown, needle.keyword, needle.caseSensitive, at);
  }

  /** A preview that holds the keyword is shown with the keyword, as a string of at most `maximum` bytes. */
  lemma ShownHoldsKeyword(raw: RawLine, lineNumber: nat, maximum: nat, needle: Needle, at: nat)
    requires Utf8.Valid(needle.keyword) && 0 < |needle.keyword| <= maximum && CR !in needle.keyword
    requires OccursAt(raw.preview, needle.keyword, needle.caseSensitive, at)
    ensures var line := IntoContextLine(raw, lineNumber, true, maximum, Some(needle));
            |line.content| <= maximum && Utf8.Valid(line.content)
            && HoldsKeyword(line.content, needle.keyword, needle.caseSensitive)
  {
    hide BoundedText, Utf8.Valid, Utf8.Lossy;
    var coversLineEnd := raw.previewStart + |raw.preview| == raw.originalLineBytes;
    var shown := ScanSpec.StripCarriageReturn(raw.preview, coversLineEnd);
    StripKeepsKeyword(raw.preview, coversLineEnd, needle, at);
    Utf8.KeywordSurvivesLossy(shown, needle.keyword, needle.caseSensitive, at);
    Utf8.LossyIsValid(shown);
    BoundedTextFits(Utf8.Lossy(shown), maximum, Some(needle));
    BoundedTextKeepsKeyword(Utf8.Lossy(shown), maximum, needle);
  }

  /** Every shown line fits. */
  lemma ShownFits(raw: RawLine, lineNumber: nat, isMatchLine: bool, maximum: nat, needle: Option<Needle>)
    ensures |IntoContextLine(raw, lineNumber, isMatchLine, maximum, needle).content| <= maximum
  {
    hide BoundedText, Utf8.Valid, Utf8.Lossy;
    var shown := ScanSpec.StripCarriageReturn(raw.preview, raw.previewStart + |raw.preview| == raw.originalLineBytes);
    Utf8.LossyIsValid(shown);
    BoundedTextFits(Utf8.Lossy(shown), maximum, needle);
  }

  /** A line that was read to its end agrees with the keyword exactly where the keyword is expected. */
  lemma AgreementIsOccurrence(line: seq<Byte>, spec: MatchSpec)
    requires spec.End() <= |line|
    ensures spec.Agrees(line) <==> OccursAt(line, spec.keyword, spec.caseSensitive, spec.relativeOffset)
  {
    hide OccursAt;
    var keyword, caseSensitive, at := spec.keyword, spec.caseSensitive, spec.relativeOffset;
    OccursByByte(line, keyword, caseSensitive, at);
    if spec.Agrees(line) {
      forall k | 0 <= k < |keyword|
        ensures Fold(line[at + k], caseSensitive) == Fold(keyword[k], caseSensitive)
      {
        assert at <= at + k < spec.End() && at + k - at == k;
      }
    } else {
      var i :| at <= i < spec.End() && Fold(line[i], caseSensitive) != Fold(keyword[i - at], caseSensitive);
      assert at + (i - at) == i;
    }
  }

  lemma OccursOutside(line: seq<Byte>, keyword: seq<Byte>, caseSensitive: bool, at: nat)
    requires at + |keyword| > |line|
    ensures !OccursAt(line, keyword, caseSensitive, at)
  {
  }

  /** The preview window always covers the whole keyword. */
  lemma PreviewCoversKeyword(line: seq<Byte>, spec: MatchSpec, maximum: nat)
    requires spec.End() <= |line| && 0 < |spec.keyword| <= maximum
    requires OccursAt(line, spec.keyword, spec.caseSensitive, spec.relativeOffset)
    ensures var start := spec.PreviewStart(maximum);
            OccursAt(Visible(line, start, maximum), spec.keyword, spec.caseSensitive, spec.relativeOffset - start)
  {
    hide OccursAt;
    var start := spec.PreviewStart(maximum);
    OccursInSlice(line, start, Min(start + maximum, |line|), Needle(spec.keyword, spec.caseSensitive),
                  spec.relativeOffset);
  }

  /** A match line that was read completely is whole, holds the keyword where it was stored, and is shown with it. */
  lemma MatchLineRead(rest: seq<Byte>, budget: nat, maximum: nat, spec: MatchSpec, lineNumber: nat)
    requires Utf8.Valid(spec.keyword) && CR !in spec.keyword
    requires ReadLine(rest, budget, maximum, Some(spec)).Ok?
             && ReadLine(rest, budget, maximum, Some(spec)).value.read.Complete?
    ensures var raw := ReadLine(rest, budget, maximum, Some(spec)).value.read.line;
            var line := IntoContextLine(raw, lineNumber, true, maximum, Some(Needle(spec.keyword, spec.caseSensitive)));
            && raw.originalLineBytes == NewlineIndex(rest) < budget
            && OccursAt(rest[..NewlineIndex(rest)], spec.keyword, spec.caseSensitive, spec.relativeOffset)
            && |line.content| <= maximum && Utf8.Valid(line.content)
            && HoldsKeyword(line.content, spec.keyword, spec.caseSensitive)
  {
    hide IntoContextLine, Utf8.Valid, HoldsKeyword, MatchSpec.Agrees;
    var n := NewlineIndex(rest);
    AgreementIsOccurrence(rest[..n], spec);
    PreviewCoversKeyword(rest[..n], spec, maximum);
    var raw := ReadLine(rest, budget, maximum, Some(spec)).value.read.line;
    ShownHoldsKeyword(raw, lineNumber, maximum, Needle(spec.keyword, spec.caseSensitive),
                      spec.relativeOffset - spec.PreviewStart(maximum));
  }

  // ---------- two previews of one line ----------

  /**
   The reader's interval preview of a match line is the scanner's sliding window, byte for byte: the shown line
   is the search's own content, cropped further only when decoding made it too long.
   */
  lemma PreviewsAgree(query: ScanSpec.LineQuery, line: seq<Byte>, at: nat, position: ScanSpec.ScanPosition,
                      lineNumber: nat)
    requires at + |query.keyword| <= |line| && 0 < |query.keyword| <= query.maxLineBytes
    ensures var spec := MatchSpec(at, query.keyword, query.caseSensitive);
            var start := spec.PreviewStart(query.maxLineBytes);
            var raw := RawLine(Visible(line, start, query.maxLineBytes), start, |line|);
            var needle := Some(Needle(query.keyword, query.caseSensitive));
            var shown := IntoContextLine(raw, lineNumber, true, query.maxLineBytes, needle);
            var found := ScanSpec.MatchAt(query, line, at, position);
            && raw.preview == ScanSpec.PreviewOf(query, line, at)
            && shown.content == BoundedText(found.content, query.maxLineBytes, needle).0
            && (shown.contentTruncated <==> found.contentTruncated || |found.content| > query.maxLineBytes)
            && shown.contentLossy == found.contentLossy && shown.originalLineBytes == found.originalLineBytes
  {
    hide BoundedText, Utf8.Lossy, Utf8.Valid;
    var found := ScanSpec.MatchAt(query, line, at, position);
    SamePreview(query, line, at);
    var start := ScanSpec.PreviewStart(at, |query.keyword|, query.maxLineBytes);
    var shown := ScanSpec.StripCarriageReturn(ScanSpec.PreviewOf(query, line, at),
                                              start + |ScanSpec.PreviewOf(query, line, at)| == |line|);
    assert found.content == Utf8.Lossy(shown);
    Utf8.LossyIsValid(shown);
    BoundedTextFits(found.content, query.maxLineBytes, Some(Needle(query.keyword, query.caseSensitive)));
  }

  lemma SamePreview(query: ScanSpec.LineQuery, line: seq<Byte>, at: nat)
    requires at + |query.keyword| <= |line| && 0 < |query.keyword| <= query.maxLineBytes
    ensures Visible(line, ScanSpec.PreviewStart(at, |query.keyword|, query.maxLineBytes), query.maxLineBytes)
         == ScanSpec.PreviewOf(query, line, at)
  {
    var start := ScanSpec.PreviewStart(at, |query.keyword|, query.maxLineBytes);
    var end := Min(start + query.maxLineBytes, |line|);
    assert line[start..end] == if start == 0 then line[..end] else line[..end][start..];
  }

  /** What the search shows of a match always holds the keyword. */
  lemma SearchShowsKeyword(query: ScanSpec.LineQuery, line: seq<Byte>, position: ScanSpec.ScanPosition)
    requires query.Searchable() && Utf8.Valid(query.keyword)
    requires ScanSpec.LineMatch(query, line, position).Some?
    ensures HoldsKeyword(ScanSpec.LineMatch(query, line, position).value.content, query.keyword, query.caseSensitive)
  {
    hide FindFolded, Utf8.Valid, Utf8.Lossy, OccursAt;
    FindFoldedIsLeftmost(line, query.keyword, query.caseSensitive);
    var at := FindFolded(line, query.keyword, query.caseSensitive).value;
    var spec, needle := MatchSpec(at, query.keyword, query.caseSensitive), Needle(query.keyword, query.caseSensitive);
    PreviewCoversKeyword(line, spec, query.maxLineBytes);
    SamePreview(query, line, at);
    var preview, start := ScanSpec.PreviewOf(query, line, at), spec.PreviewStart(query.maxLineBytes);
    var shown := ScanSpec.StripCarriageReturn(preview, start + |preview| == |line|);
    StripKeepsKeyword(preview, start + |preview| == |line|, needle, at - start);
    Utf8.KeywordSurvivesLossy(shown, query.keyword, query.caseSensitive, at - start);
  }

  /** The line before the match whose truncation flag the two renderings disagree on. */
  predicate OneCarriageReturnTooLong(line: seq<Byte>, maximum: nat) {
    |line| == maximum + 1 && line[maximum] == CR && |Utf8.Lossy(line[..maximum])| <= maximum
  }

  /**
   A line is shown alike before and behind the match, except that a line exactly one carriage return longer
   than the maximum is marked as truncated only behind it.
   */
  lemma RenderingsAgree(line: seq<Byte>, lineNumber: nat, maximum: nat)
    ensures var before := ContextLineFromBytes(lineNumber, line, maximum);
            var after := IntoContextLine(RawLine(Visible(line, 0, maximum), 0, |line|), lineNumber, false, maximum,
                                         None);
            && before == after.(contentTruncated := before.contentTruncated)
            && (before == after <==> !OneCarriageReturnTooLong(line, maximum))
  {
    hide Utf8.Lossy, Utf8.Valid, BoundedText;
    var display := ScanSpec.StripCarriageReturn(line, true);
    var shownBefore := display[..Min(|display|, maximum)];
    var preview := Visible(line, 0, maximum);
    var shownAfter := ScanSpec.StripCarriageReturn(preview, |preview| == |line|);
    if |line| <= maximum {
      assert preview == line && shownBefore == display == shownAfter;
    } else {
      assert preview == line[..maximum] == shownBefore == shownAfter;
      Utf8.LossyIsValid(shownBefore);
      BoundedTextFits(Utf8.Lossy(shownBefore), maximum, None);
    }
  }

  /** Such a line: one letter and a carriage return, shown in one byte. */
  lemma RenderingsDiffer()
    ensures var line: seq<Byte> := [97, CR];
            ContextLineFromBytes(1, line, 1) != IntoContextLine(RawLine(Visible(line, 0, 1), 0, 2), 1, false, 1, None)
  {
    hide Utf8.Lossy, Utf8.Valid, BoundedText;
    var line: seq<Byte> := [97, CR];
    assert line[..1] == [97];
    assert OneCarriageReturnTooLong(line, 1) by { assert |Utf8.Lossy([97])| <= 1 by { OneLetter(); } }
    RenderingsAgree(line, 1, 1);
  }

  lemma OneLetter()
    ensures |Utf8.Lossy([97])| <= 1
  {
  }
}
