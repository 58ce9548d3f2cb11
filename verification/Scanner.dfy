/**
 The streaming scanner: one pass over arbitrarily short reads with a KMP matcher, a sliding window before
 the match and a bounded preview, proved equal to the line-by-line meaning in `ScanSpec`.
 */
module Scanner {
  import opened Wrappers
  import opened Bytes
  import opened ScanSpec
  import Kmp
  import Utf8

  const INTERRUPT_CHECK_INTERVAL_BYTES: nat := 4 * 1024

  // ---------- the reader ----------

  datatype ReadResult = Chunk(bytes: seq<Byte>) | Interrupted | Failed

  /**
   A stream that may hand out any non-empty part of what was asked for, be interrupted finitely often,
   and, when `faulty`, fail. An empty chunk means the end of the data.
   */
  class Reader {
    const data: seq<Byte>
    const faulty: bool
    var position: nat
    var interruptions: nat

    ghost predicate Valid()
      reads this
    {
      position <= |data|
    }

    constructor (data: seq<Byte>, faulty: bool, interruptions: nat)
      ensures Valid() && this.data == data && this.faulty == faulty && position == 0
    {
      this.data := data;
      this.faulty := faulty;
      this.position := 0;
      this.interruptions := interruptions;
    }

    /** Seeking behind the end is allowed; what is read there is empty, as it is at the end. */
    method Seek(offset: nat)
      requires Valid()
      modifies this`position
      ensures Valid() && position == Min(offset, |data|)
    {
      position := Min(offset, |data|);
    }

    method Read(size: nat) returns (r: ReadResult)
      requires Valid() && size > 0
      modifies this
      ensures Valid() && position >= old(position)
      ensures r.Chunk? ==> |r.bytes| <= size && r.bytes == data[old(position)..position]
      ensures r.Chunk? ==> (r.bytes == [] <==> old(position) == |data|)
      ensures !r.Chunk? ==> position == old(position)
      ensures interruptions <= old(interruptions)
      ensures r.Interrupted? ==> interruptions < old(interruptions)
      ensures r.Failed? ==> faulty
    {
      if {
        case interruptions > 0 =>
          interruptions := interruptions - 1;
          return Interrupted;
        case faulty =>
          return Failed;
        case position == |data| =>
          return Chunk([]);
        case position < |data| =>
          var start := position;
          var count: nat :| 1 <= count <= size && start + count <= |data|;
          position := start + count;
          return Chunk(data[start..position]);
      }
    }
  }

  /** Cancellation and deadline, which may fire at any check when `interruptible`. */
  method InterruptReason(interruptible: bool) returns (reason: Option<ScanStopReason>)
    ensures reason.Some? ==> interruptible && (reason.value == Cancelled || reason.value == DeadlineExceeded)
  {
    if {
      case interruptible => return Some(Cancelled);
      case interruptible => return Some(DeadlineExceeded);
      case true => return None;
    }
  }

  // ---------- facts about occurrences ----------

  lemma FoldAppend(s: seq<Byte>, b: Byte, caseSensitive: bool)
    ensures FoldAll(s + [b], caseSensitive) == FoldAll(s, caseSensitive) + [Fold(b, caseSensitive)]
  {
  }

  lemma OccursInPrefix(s: seq<Byte>, more: seq<Byte>, keyword: seq<Byte>, caseSensitive: bool, i: nat)
    requires i + |keyword| <= |s|
    ensures OccursAt(s + more, keyword, caseSensitive, i) <==> OccursAt(s, keyword, caseSensitive, i)
  {
    assert (s + more)[i..i + |keyword|] == s[i..i + |keyword|];
  }

  lemma FoldEqualIsEqualFolds(a: seq<Byte>, b: seq<Byte>, caseSensitive: bool)
    ensures FoldEqual(a, b, caseSensitive) <==> FoldAll(a, caseSensitive) == FoldAll(b, caseSensitive)
  {
    if FoldAll(a, caseSensitive) == FoldAll(b, caseSensitive) {
      forall i | 0 <= i < |a|
        ensures Fold(a[i], caseSensitive) == Fold(b[i], caseSensitive)
      {
        assert FoldAll(a, caseSensitive)[i] == FoldAll(b, caseSensitive)[i];
      }
    }
  }

  lemma FoldFrom(s: seq<Byte>, from: nat, caseSensitive: bool)
    requires from <= |s|
    ensures FoldAll(s, caseSensitive)[from..] == FoldAll(s[from..], caseSensitive)
  {
  }

  lemma OccursAtEnd(s: seq<Byte>, keyword: seq<Byte>, caseSensitive: bool)
    requires |keyword| <= |s|
    ensures OccursAt(s, keyword, caseSensitive, |s| - |keyword|)
       <==> Kmp.PrefixIsSuffix(FoldAll(keyword, caseSensitive), FoldAll(s, caseSensitive), |keyword|)
  {
    hide FoldAll;
    var from := |s| - |keyword|;
    var tail := s[from..];
    assert s[from..from + |keyword|] == tail;
    FoldEqualIsEqualFolds(tail, keyword, caseSensitive);
    FoldFrom(s, from, caseSensitive);
    assert FoldAll(keyword, caseSensitive)[..|keyword|] == FoldAll(keyword, caseSensitive);
  }

  /** The leftmost occurrence stays leftmost when bytes are appended. */
  lemma FindStable(s: seq<Byte>, more: seq<Byte>, keyword: seq<Byte>, caseSensitive: bool)
    requires keyword != [] && FindFolded(s, keyword, caseSensitive).Some?
    ensures FindFolded(s + more, keyword, caseSensitive) == FindFolded(s, keyword, caseSensitive)
  {
    FindFoldedIsLeftmost(s, keyword, caseSensitive);
    var at := FindFolded(s, keyword, caseSensitive).value;
    OccursInPrefix(s, more, keyword, caseSensitive, at);
    forall j: nat | j < at
      ensures !OccursAt(s + more, keyword, caseSensitive, j)
    {
      OccursInPrefix(s, more, keyword, caseSensitive, j);
    }
    LeftmostIsFound(s + more, keyword, caseSensitive, at);
  }

  /** Appending a byte can add only an occurrence that ends with it. */
  lemma OnlyAtEnd(s: seq<Byte>, b: Byte, keyword: seq<Byte>, caseSensitive: bool, j: nat)
    requires keyword != [] && FindFolded(s, keyword, caseSensitive).None?
    requires OccursAt(s + [b], keyword, caseSensitive, j)
    ensures j + |keyword| == |s| + 1
  {
    if j + |keyword| <= |s| {
      OccursInPrefix(s, [b], keyword, caseSensitive, j);
      FindFoldedIsLeftmost(s, keyword, caseSensitive);
      assert false;
    }
  }

  lemma FirstAtEnd(s: seq<Byte>, b: Byte, keyword: seq<Byte>, caseSensitive: bool)
    requires keyword != [] && FindFolded(s, keyword, caseSensitive).None? && |keyword| <= |s| + 1
    requires OccursAt(s + [b], keyword, caseSensitive, |s| + 1 - |keyword|)
    ensures FindFolded(s + [b], keyword, caseSensitive) == Some(|s| + 1 - |keyword|)
  {
    FindFoldedIsLeftmost(s + [b], keyword, caseSensitive);
    var found := FindFolded(s + [b], keyword, caseSensitive);
    OnlyAtEnd(s, b, keyword, caseSensitive, found.value);
  }

  lemma NoneAtEnd(s: seq<Byte>, b: Byte, keyword: seq<Byte>, caseSensitive: bool)
    requires keyword != [] && FindFolded(s, keyword, caseSensitive).None?
    requires |keyword| <= |s| + 1 ==> !OccursAt(s + [b], keyword, caseSensitive, |s| + 1 - |keyword|)
    ensures FindFolded(s + [b], keyword, caseSensitive).None?
  {
    FindFoldedIsLeftmost(s + [b], keyword, caseSensitive);
    var found := FindFolded(s + [b], keyword, caseSensitive);
    if found.Some? {
      OnlyAtEnd(s, b, keyword, caseSensitive, found.value);
    }
  }

  /** The matcher state decides whether the appended byte completes the first occurrence. */
  lemma StateDecides(s: seq<Byte>, b: Byte, keyword: seq<Byte>, caseSensitive: bool, state: nat)
    requires keyword != [] && FindFolded(s, keyword, caseSensitive).None?
    requires Kmp.LongestBelow(FoldAll(keyword, caseSensitive), FoldAll(s + [b], caseSensitive), |keyword| + 1, state)
    ensures state == |keyword| ==>
              |keyword| <= |s| + 1 && FindFolded(s + [b], keyword, caseSensitive) == Some(|s| + 1 - |keyword|)
    ensures state < |keyword| ==> FindFolded(s + [b], keyword, caseSensitive).None?
  {
    hide FindFolded, FindFrom, FoldAll, OccursAt;
    if |keyword| <= |s| + 1 {
      OccursAtEnd(s + [b], keyword, caseSensitive);
    }
    if state == |keyword| {
      FirstAtEnd(s, b, keyword, caseSensitive);
    } else {
      NoneAtEnd(s, b, keyword, caseSensitive);
    }
  }

  // ---------- the state kept for one line ----------

  function WindowCapacity(query: LineQuery): nat
    requires query.Searchable()
  {
    (query.maxLineBytes - |query.keyword|) / 2 + |query.keyword|
  }

  /** The last `capacity` bytes. */
  function Tail(s: seq<Byte>, capacity: nat): seq<Byte> {
    if |s| <= capacity then s else s[|s| - capacity..]
  }

  /** The sliding window drops its oldest byte once it is full. */
  lemma TailSlides(s: seq<Byte>, b: Byte, capacity: nat)
    requires capacity > 0
    ensures Tail(s + [b], capacity)
         == (if |Tail(s, capacity)| == capacity then Tail(s, capacity)[1..] else Tail(s, capacity)) + [b]
  {
  }

  /** After the match the preview takes bytes until it is full. */
  lemma PreviewGrows(query: LineQuery, line: seq<Byte>, b: Byte, at: nat)
    requires at <= |line|
    ensures PreviewOf(query, line + [b], at)
         == PreviewOf(query, line, at) + if |PreviewOf(query, line, at)| < query.maxLineBytes then [b] else []
  {
  }

  /** When the first occurrence ends with the last byte, the sliding window is the beginning of the preview. */
  lemma WindowIsPreview(query: LineQuery, line: seq<Byte>)
    requires query.Searchable() && |query.keyword| <= |line|
    ensures var at := |line| - |query.keyword|; var window := Tail(line, WindowCapacity(query));
            && PreviewStart(at, |query.keyword|, query.maxLineBytes) == |line| - |window|
            && PreviewOf(query, line, at) == window
  {
  }

  /** The line so far holds no occurrence, and the matcher state is the longest candidate at its end. */
  ghost predicate Unmatched(query: LineQuery, line: seq<Byte>, state: nat) {
    && FindFolded(line, query.keyword, query.caseSensitive).None?
    && Kmp.LongestBelow(FoldAll(query.keyword, query.caseSensitive), FoldAll(line, query.caseSensitive),
                        |query.keyword|, state)
  }

  lemma EmptyUnmatched(query: LineQuery)
    requires query.Searchable()
    ensures Unmatched(query, [], 0)
  {
    var pattern := FoldAll(query.keyword, query.caseSensitive);
    assert pattern[..0] == FoldAll([], query.caseSensitive)[0..];
  }

  method AdvanceMatcher(query: LineQuery, pattern: seq<Byte>, failure: seq<nat>, ghost line: seq<Byte>, state: nat,
                        byte: Byte)
    returns (next: nat)
    requires query.Searchable() && Unmatched(query, line, state)
    requires pattern == FoldAll(query.keyword, query.caseSensitive) && Kmp.FailureTable(pattern, failure)
    ensures next <= |pattern|
    ensures next < |pattern| ==>
              Unmatched(query, line + [byte], next)
              && FindFolded(line + [byte], query.keyword, query.caseSensitive).None?
    ensures next == |pattern| ==>
              && |query.keyword| <= |line| + 1
              && FindFolded(line + [byte], query.keyword, query.caseSensitive) == Some(|line| + 1 - |query.keyword|)
  {
    hide FindFolded, FindFrom, FoldAll, Kmp.FailureTable, Kmp.PrefixIsSuffix;
    FoldAppend(line, byte, query.caseSensitive);
    next := Kmp.Advance(pattern, failure, FoldAll(line, query.caseSensitive), state, Fold(byte, query.caseSensitive));
    StateDecides(line, byte, query.keyword, query.caseSensitive, next);
  }

  /** How the fields of a line capture describe the bytes of the line so far. */
  datatype Capture = Capture(
    lineStartOffset: nat,
    matcherState: nat,
    preMatchWindow: seq<Byte>,
    preview: seq<Byte>,
    previewStartInLine: nat,
    matchByteOffset: Option<nat>)
  {
    ghost predicate Searching(query: LineQuery, line: seq<Byte>)
      requires query.Searchable()
    {
      && matchByteOffset.None?
      && FindFolded(line, query.keyword, query.caseSensitive).None?
      && Unmatched(query, line, matcherState)
      && preMatchWindow == Tail(line, WindowCapacity(query))
      && preview == [] && previewStartInLine == 0
    }

    ghost predicate Found(query: LineQuery, line: seq<Byte>, at: nat) {
      && FindFolded(line, query.keyword, query.caseSensitive) == Some(at)
      && matchByteOffset == Some(lineStartOffset + at)
      && previewStartInLine == PreviewStart(at, |query.keyword|, query.maxLineBytes)
      && at <= |line| && preview == PreviewOf(query, line, at)
    }

    ghost predicate Describes(query: LineQuery, line: seq<Byte>)
      requires query.Searchable()
    {
      if matchByteOffset.None? then Searching(query, line)
      else matchByteOffset.value >= lineStartOffset && Found(query, line, matchByteOffset.value - lineStartOffset)
    }
  }

  lemma FreshDescribes(query: LineQuery, lineStartOffset: nat)
    requires query.Searchable()
    ensures Capture(lineStartOffset, 0, [], [], 0, None).Describes(query, [])
  {
    EmptyUnmatched(query);
  }

  /** After the match only the preview grows. */
  lemma FoundGrows(query: LineQuery, line: seq<Byte>, b: Byte, c: Capture, at: nat)
    requires query.Searchable() && c.Found(query, line, at)
    ensures c.(preview := if |c.preview| < query.maxLineBytes then c.preview + [b] else c.preview)
             .Found(query, line + [b], at)
  {
    FindStable(line, [b], query.keyword, query.caseSensitive);
    PreviewGrows(query, line, b, at);
  }

  function Slide(window: seq<Byte>, b: Byte, capacity: nat): seq<Byte> {
    (if |window| == capacity && capacity > 0 then window[1..] else window) + [b]
  }

  lemma SearchingFacts(query: LineQuery, line: seq<Byte>, b: Byte, c: Capture)
    requires query.Searchable() && c.Searching(query, line)
    ensures Unmatched(query, line, c.matcherState) && c.preview == [] && WindowCapacity(query) > 0
    ensures Slide(c.preMatchWindow, b, WindowCapacity(query)) == Tail(line + [b], WindowCapacity(query))
    ensures |Tail(line + [b], WindowCapacity(query))| <= |line| + 1
  {
    TailSlides(line, b, WindowCapacity(query));
  }

  /** The byte that completes the first occurrence turns the window into the preview. */
  lemma WindowBecomesPreview(query: LineQuery, line: seq<Byte>, c: Capture)
    requires query.Searchable() && |query.keyword| <= |line|
    requires FindFolded(line, query.keyword, query.caseSensitive) == Some(|line| - |query.keyword|)
    requires c.matchByteOffset == Some(c.lineStartOffset + |line| - |query.keyword|)
    requires c.preview == Tail(line, WindowCapacity(query)) && c.previewStartInLine == |line| - |c.preview|
    ensures c.Found(query, line, |line| - |query.keyword|)
  {
    WindowIsPreview(query, line);
  }

  /** The match of a finished line, read off its capture. */
  lemma CaptureMatch(c: Capture, query: LineQuery, line: seq<Byte>, lineNumber: nat)
    requires query.Searchable() && c.Describes(query, line)
    ensures var shown := StripCarriageReturn(c.preview, c.previewStartInLine + |c.preview| == |line|);
            LineMatch(query, line, ScanPosition(c.lineStartOffset, lineNumber))
            == if c.matchByteOffset.None? then None
               else Some(ScanMatch(lineNumber, c.lineStartOffset, c.matchByteOffset.value, Utf8.Lossy(shown),
                                   c.previewStartInLine > 0 || c.previewStartInLine + |c.preview| != |line|,
                                   !Utf8.Valid(shown), |line|))
  {
    hide Utf8.Valid, Utf8.Lossy, FindFolded, Unmatched, PreviewOf, PreviewStart;
  }

  lemma TableSize(query: LineQuery, pattern: seq<Byte>, failure: seq<nat>)
    requires query.Searchable() && pattern == FoldAll(query.keyword, query.caseSensitive)
    requires Kmp.FailureTable(pattern, failure)
    ensures 0 < |pattern| == |query.keyword| == |failure|
  {
  }

  class LineCapture {
    var lineNumber: nat
    var lineStartOffset: nat
    var lineBytes: nat
    var matcherState: nat
    var preMatchWindow: seq<Byte>
    const preMatchWindowCapacity: nat
    var preview: seq<Byte>
    var previewStartInLine: nat
    var matchByteOffset: Option<nat>
    /** The bytes of the line so far. */
    ghost var seen: seq<Byte>

    function Position(): ScanPosition
      reads this
    {
      ScanPosition(lineNumber := lineNumber, byteOffset := lineStartOffset)
    }

    ghost function State(): Capture
      reads this
    {
      Capture(lineStartOffset, matcherState, preMatchWindow, preview, previewStartInLine, matchByteOffset)
    }

    /** The fields describe the line read so far. */
    ghost predicate Represents(query: LineQuery)
      requires query.Searchable()
      reads this
    {
      && preMatchWindowCapacity == WindowCapacity(query)
      && lineBytes == |seen|
      && State().Describes(query, seen)
    }

    constructor (position: ScanPosition, ghost query: LineQuery, preMatchWindowCapacity: nat)
      requires query.Searchable() && preMatchWindowCapacity == WindowCapacity(query)
      ensures Represents(query) && seen == [] && Position() == position
    {
      this.lineNumber := position.lineNumber;
      this.lineStartOffset := position.byteOffset;
      this.lineBytes := 0;
      this.matcherState := 0;
      this.preMatchWindow := [];
      this.preMatchWindowCapacity := preMatchWindowCapacity;
      this.preview := [];
      this.previewStartInLine := 0;
      this.matchByteOffset := None;
      this.seen := [];
      FreshDescribes(query, position.byteOffset);
    }

    method PushByte(byte: Byte, absoluteOffset: nat, pattern: seq<Byte>, failure: seq<nat>, query: LineQuery)
      requires query.Searchable() && Represents(query)
      requires pattern == FoldAll(query.keyword, query.caseSensitive) && Kmp.FailureTable(pattern, failure)
      requires absoluteOffset == lineStartOffset + |seen|
      modifies this
      ensures Represents(query) && seen == old(seen) + [byte] && Position() == old(Position())
    {
      hide FindFolded, FindFrom, FoldAll, Unmatched, PreviewOf, PreviewStart, Tail, Capture.Found, WindowCapacity,
           Kmp.FailureTable;
      TableSize(query, pattern, failure);
      ghost var line, before := seen, State();
      lineBytes, seen := lineBytes + 1, line + [byte];

      if matchByteOffset.Some? {
        FoundGrows(query, line, byte, before, matchByteOffset.value - lineStartOffset);
        if |preview| < query.maxLineBytes {
          preview := preview + [byte];
        }
        return;
      }

      SearchingFacts(query, line, byte, before);
      if |preMatchWindow| == preMatchWindowCapacity {
        preMatchWindow := preMatchWindow[1..];
      }
      preMatchWindow := preMatchWindow + [byte];

      matcherState := AdvanceMatcher(query, pattern, failure, line, matcherState, byte);

      if matcherState == |pattern| {
        TakeWindow(absoluteOffset, pattern, failure, query);
      }
    }

    /** The keyword is complete: the window before and around it begins the preview. */
    method TakeWindow(absoluteOffset: nat, pattern: seq<Byte>, failure: seq<nat>, query: LineQuery)
      requires query.Searchable() && preMatchWindowCapacity == WindowCapacity(query)
      requires |pattern| == |query.keyword| == |failure| == matcherState
      requires lineBytes == |seen| && absoluteOffset + 1 == lineStartOffset + |seen| && |pattern| <= |seen|
      requires FindFolded(seen, query.keyword, query.caseSensitive) == Some(|seen| - |pattern|)
      requires matchByteOffset.None? && preview == []
      requires preMatchWindow == Tail(seen, WindowCapacity(query)) && |preMatchWindow| <= |seen|
      modifies this
      ensures Represents(query) && seen == old(seen) && Position() == old(Position())
    {
      hide FindFolded, FindFrom, PreviewOf, PreviewStart, Tail, Capture.Found, WindowCapacity;
      matchByteOffset := Some(absoluteOffset + 1 - |pattern|);
      previewStartInLine := lineBytes - |preMatchWindow|;
      preview := preview + preMatchWindow;
      matcherState := failure[matcherState - 1];
      WindowBecomesPreview(query, seen, State());
    }

    /** The match of the finished line, exactly as the specification cuts it. */
    method TakeMatch(query: LineQuery) returns (found: Option<ScanMatch>)
      requires query.Searchable() && Represents(query)
      modifies this`preview
      ensures found == LineMatch(query, seen, Position())
    {
      hide Utf8.Valid, Utf8.Lossy, LineMatch, Capture.Searching, Capture.Found;
      CaptureMatch(State(), query, seen, lineNumber);
      if matchByteOffset.None? {
        return None;
      }
      var previewEndInLine := previewStartInLine + |preview|;
      var coversLineEnd := previewEndInLine == lineBytes;
      if coversLineEnd && preview != [] && preview[|preview| - 1] == CR {
        preview := preview[..|preview| - 1];
      }
      var contentTruncated := previewStartInLine > 0 || !coversLineEnd;
      Utf8.LossyFixesStrings(preview);
      var (content, contentLossy) :=
        if Utf8.Valid(preview) then (preview, false) else (Utf8.Lossy(preview), true);
      return Some(ScanMatch(lineNumber, lineStartOffset, matchByteOffset.value, content, contentTruncated,
                            contentLossy, lineBytes));
    }

    method Reset(position: ScanPosition, ghost query: LineQuery)
      requires query.Searchable() && preMatchWindowCapacity == WindowCapacity(query)
      modifies this
      ensures Represents(query) && seen == [] && Position() == position
    {
      lineNumber := position.lineNumber;
      lineStartOffset := position.byteOffset;
      lineBytes := 0;
      matcherState := 0;
      preMatchWindow := [];
      preview := [];
      previewStartInLine := 0;
      matchByteOffset := None;
      seen := [];
      FreshDescribes(query, position.byteOffset);
    }
  }

  // ---------- the state kept for the whole scan ----------

  /** The counters as they stood when the current line began. */
  function AtLineStart(done: Progress, line: seq<Byte>): Progress
    requires |line| <= done.bytesScanned
  {
    done.(bytesScanned := done.bytesScanned - |line|)
  }

  /** Whatever the byte budget, the scan of `data` goes on from `done` at a line boundary. */
  ghost predicate Resumes(request: ScanRequest, data: seq<Byte>, done: Progress) {
    && done.bytesScanned <= |data|
    && forall budget: nat :: done.bytesScanned <= budget ==>
         ScanWithin(request, data, budget)
         == ScanFrom(request, From(data, done.bytesScanned), budget - done.bytesScanned, done)
  }

  /** `done` describes the bytes before the current line, `line` is the part of the line already read. */
  ghost predicate Scanning(request: ScanRequest, data: seq<Byte>, done: Progress, line: seq<Byte>) {
    && |line| <= done.bytesScanned <= |data|
    && LF !in line
    && line == data[done.bytesScanned - |line|..done.bytesScanned]
    && done.linesScanned <= done.bytesScanned
    && Resumes(request, data, AtLineStart(done, line))
  }

  /** A position is only reported at a line boundary. */
  function Boundary(request: ScanRequest, done: Progress, line: seq<Byte>): Option<ScanPosition> {
    if line == [] then Some(PositionAfter(request.startPosition, done)) else None
  }

  predicate PositionsFit(request: ScanRequest, data: seq<Byte>) {
    && request.startPosition.byteOffset + |data| < U64_LIMIT
    && request.startPosition.lineNumber + |data| < U64_LIMIT
  }

  /** The scan was interrupted after `read` bytes: what it reports is a scan limited to those bytes. */
  ghost predicate InterruptedAfter(request: ScanRequest, data: seq<Byte>, outcome: ScanOutcome, read: nat) {
    && read <= |data|
    && ScanWithin(request, data, read).stopReason == ScanByteLimit
    && (outcome.stopReason == Cancelled || outcome.stopReason == DeadlineExceeded)
    && outcome == ScanWithin(request, data, read).(stopReason := outcome.stopReason)
  }

  /** What a scan of `data` may return. */
  ghost predicate Returns(request: ScanRequest, data: seq<Byte>, interruptible: bool,
                          r: Result<ScanOutcome, ScanError>)
  {
    match r
    case Ok(outcome) =>
      || outcome == ScanWithin(request, data, request.limits.maxScanBytes)
      || (interruptible && exists read: nat :: InterruptedAfter(request, data, outcome, read))
    case Err(error) => error == PositionOverflow && !PositionsFit(request, data)
  }

  lemma ScanningAdds(request: ScanRequest, data: seq<Byte>, done: Progress, line: seq<Byte>)
    requires Scanning(request, data, done, line)
    requires done.bytesScanned < |data| && data[done.bytesScanned] != LF
    ensures Scanning(request, data, done.(bytesScanned := done.bytesScanned + 1), line + [data[done.bytesScanned]])
  {
    hide ScanFrom, ScanWithin;
    var next := done.(bytesScanned := done.bytesScanned + 1);
    assert AtLineStart(next, line + [data[done.bytesScanned]]) == AtLineStart(done, line);
  }

  /** The rest of the data from the start of the current line. */
  lemma RestOfLine(data: seq<Byte>, from: nat, to: nat)
    requires from <= to <= |data| && LF !in data[from..to]
    ensures From(data, from)[..to - from] == data[from..to]
    ensures (to == |data| || data[to] == LF) ==> NewlineIndex(From(data, from)) == to - from
    ensures to - from <= NewlineIndex(From(data, from))
  {
    var rest, n := From(data, from), NewlineIndex(From(data, from));
    assert forall i :: 0 <= i < to - from ==> rest[i] == data[from..to][i];
    assert to < |data| ==> rest[to - from] == data[to];
  }

  /** A scan whose budget is used up here reports everything so far, and a position only between lines. */
  lemma ScanPauses(request: ScanRequest, data: seq<Byte>, done: Progress, line: seq<Byte>)
    requires Scanning(request, data, done, line)
    ensures ScanWithin(request, data, done.bytesScanned)
         == Outcome(request, done, ScanByteLimit, Boundary(request, done, line))
  {
    hide ScanWithin, LineMatch;
    var start := AtLineStart(done, line);
    RestOfLine(data, start.bytesScanned, done.bytesScanned);
    assert ScanWithin(request, data, done.bytesScanned)
        == ScanFrom(request, From(data, start.bytesScanned), |line|, start);
  }

  /** A line feed ends the current line. */
  lemma ScanClosesLine(request: ScanRequest, data: seq<Byte>, done: Progress, line: seq<Byte>)
    requires Scanning(request, data, done, line)
    requires done.bytesScanned < |data| && data[done.bytesScanned] == LF
    ensures var start := AtLineStart(done, line);
            var found := LineMatch(request.Query(), line, PositionAfter(request.startPosition, start));
            var (next, stop) := CloseLine(request.limits, found, |line| + 1, start);
            && next.bytesScanned == done.bytesScanned + 1 && next.linesScanned == done.linesScanned + 1
            && (stop.None? ==> Scanning(request, data, next, []))
            && (stop.Some? ==> forall budget: nat :: done.bytesScanned < budget ==>
                  ScanWithin(request, data, budget)
                  == Outcome(request, next, stop.value, Some(PositionAfter(request.startPosition, next))))
  {
    hide ScanWithin, ScanFrom, LineMatch, PositionAfter, Outcome, From, NewlineIndex;
    var start := AtLineStart(done, line);
    var rest := From(data, start.bytesScanned);
    RestOfLine(data, start.bytesScanned, done.bytesScanned);
    var found := LineMatch(request.Query(), line, PositionAfter(request.startPosition, start));
    var (next, stop) := CloseLine(request.limits, found, |line| + 1, start);
    FromTwice(data, start.bytesScanned, |line| + 1);
    forall budget: nat | next.bytesScanned <= budget
      ensures ScanWithin(request, data, budget)
           == if stop.Some? then Outcome(request, next, stop.value, Some(PositionAfter(request.startPosition, next)))
              else ScanFrom(request, From(data, next.bytesScanned), budget - next.bytesScanned, next)
    {
      ScanFromLine(request, rest, |line|, budget - start.bytesScanned, start);
    }
  }

  /** The end of the data ends the last line, if it has any bytes. */
  lemma ScanEnds(request: ScanRequest, data: seq<Byte>, done: Progress, line: seq<Byte>, budget: nat)
    requires Scanning(request, data, done, line)
    requires done.bytesScanned == |data| < budget
    ensures var start := AtLineStart(done, line);
            var found := LineMatch(request.Query(), line, PositionAfter(request.startPosition, start));
            var (next, stop) := CloseLine(request.limits, found, |line|, start);
            ScanWithin(request, data, budget)
            == if line == [] then Outcome(request, done, Complete, None)
               else Outcome(request, next, if stop.Some? then stop.value else Complete, None)
  {
    hide ScanWithin, LineMatch;
    var start := AtLineStart(done, line);
    RestOfLine(data, start.bytesScanned, done.bytesScanned);
    assert ScanWithin(request, data, budget)
        == ScanFrom(request, From(data, start.bytesScanned), budget - start.bytesScanned, start);
  }

  // ---------- the scan loop ----------

  method PositionAfterLines(request: ScanRequest, done: Progress) returns (r: Result<ScanPosition, ScanError>)
    ensures r.Ok? ==> r.value == PositionAfter(request.startPosition, done)
    ensures r.Err? ==> r.error == PositionOverflow
    ensures r.Err? <==>
              || request.startPosition.byteOffset + done.bytesScanned >= U64_LIMIT
              || request.startPosition.lineNumber + done.linesScanned >= U64_LIMIT
  {
    if request.startPosition.byteOffset + done.bytesScanned >= U64_LIMIT {
      return Err(PositionOverflow);
    }
    if request.startPosition.lineNumber + done.linesScanned >= U64_LIMIT {
      return Err(PositionOverflow);
    }
    return Ok(PositionAfter(request.startPosition, done));
  }

  /** `boundary_position` followed by `build_outcome`: stop here for `reason`. */
  method StopHere(request: ScanRequest, done: Progress, line: LineCapture, reason: ScanStopReason,
                  ghost data: seq<Byte>)
    returns (r: Result<ScanOutcome, ScanError>)
    requires Scanning(request, data, done, line.seen) && line.lineBytes == |line.seen|
    ensures r.Ok? ==> r.value == ScanWithin(request, data, done.bytesScanned).(stopReason := reason)
    ensures r.Ok? ==> ScanWithin(request, data, done.bytesScanned).stopReason == ScanByteLimit
    ensures r.Err? ==> r.error == PositionOverflow && !PositionsFit(request, data)
  {
    ScanPauses(request, data, done, line.seen);
    if line.lineBytes > 0 {
      return Ok(Outcome(request, done, reason, None));
    }
    var position := PositionAfterLines(request, done);
    if position.Err? {
      return Err(position.error);
    }
    return Ok(Outcome(request, done, reason, Some(position.value)));
  }

  /** Takes the finished line's match; the line and its bytes are already counted in `done`. */
  method FinishLine(line: LineCapture, done: Progress, limits: ScanLimits, query: LineQuery)
    returns (next: Progress, stop: Option<ScanStopReason>)
    requires query.Searchable() && line.Represents(query)
    modifies line`preview
    ensures (next, stop) == KeepMatch(limits, LineMatch(query, line.seen, line.Position()), done)
  {
    var found := line.TakeMatch(query);
    if found.None? {
      return done, None;
    }
    var contentBytes := |found.value.content|;
    if done.contentBytes + contentBytes > limits.maxReturnedContentBytes {
      return done, Some(ReturnedContentByteLimit);
    }
    next := done.(contentBytes := done.contentBytes + contentBytes, results := done.results + [found.value]);
    if |next.results| >= limits.maxResults {
      return next, Some(ResultLimit);
    }
    if next.contentBytes >= limits.maxReturnedContentBytes {
      return next, Some(ReturnedContentByteLimit);
    }
    return next, None;
  }

  /** The scanner between two bytes: counters, line capture and data agree. */
  ghost predicate InStep(request: ScanRequest, data: seq<Byte>, done: Progress, line: LineCapture)
    reads line
  {
    && request.Query().Searchable()
    && line.Represents(request.Query())
    && Scanning(request, data, done, line.seen)
    && line.Position() == PositionAfter(request.startPosition, AtLineStart(done, line.seen))
  }

  /** A line feed finishes the line; the next one begins unless a limit was met. */
  method EndLine(request: ScanRequest, line: LineCapture, done: Progress, ghost data: seq<Byte>)
    returns (next: Progress, exit: Option<Result<ScanOutcome, ScanError>>)
    requires InStep(request, data, done, line)
    requires done.bytesScanned < |data| && data[done.bytesScanned] == LF
    requires done.bytesScanned < request.limits.maxScanBytes
    modifies line
    ensures exit.Some? ==> Returns(request, data, false, exit.value)
    ensures exit.None? ==> InStep(request, data, next, line) && next.bytesScanned == done.bytesScanned + 1
  {
    hide ScanWithin, ScanFrom, LineMatch, CloseLine, KeepMatch, LineCapture.Represents, WindowCapacity;
    ghost var before := line.seen;
    ScanClosesLine(request, data, done, before);
    next := done.(bytesScanned := done.bytesScanned + 1, linesScanned := done.linesScanned + 1);
    var position := PositionAfterLines(request, next);
    if position.Err? {
      return next, Some(Err(position.error));
    }
    KnowsCapacity(line, request.Query());
    var kept, stop := FinishLine(line, next, request.limits, request.Query());
    CloseLineCounts(request.limits, LineMatch(request.Query(), before, line.Position()), before, done);
    if stop.Some? {
      return kept, Some(Ok(Outcome(request, kept, stop.value, Some(position.value))));
    }
    line.Reset(position.value, request.Query());
    return kept, None;
  }

  lemma KnowsCapacity(line: LineCapture, query: LineQuery)
    requires query.Searchable() && line.Represents(query)
    ensures line.preMatchWindowCapacity == WindowCapacity(query)
  {
  }

  /** Handles one byte: `exit` is set when the scan returns. */
  method ScanByte(request: ScanRequest, pattern: seq<Byte>, failure: seq<nat>, line: LineCapture, byte: Byte,
                  done: Progress, ghost data: seq<Byte>)
    returns (next: Progress, exit: Option<Result<ScanOutcome, ScanError>>)
    requires InStep(request, data, done, line)
    requires done.bytesScanned < |data| && data[done.bytesScanned] == byte
    requires done.bytesScanned < request.limits.maxScanBytes
    requires pattern == FoldAll(request.keyword, request.caseSensitive) && Kmp.FailureTable(pattern, failure)
    modifies line
    ensures exit.Some? ==> Returns(request, data, false, exit.value)
    ensures exit.None? ==> InStep(request, data, next, line) && next.bytesScanned == done.bytesScanned + 1
  {
    hide ScanWithin, ScanFrom, FoldAll, Kmp.FailureTable, LineCapture.Represents;
    var absoluteOffset := request.startPosition.byteOffset + done.bytesScanned;
    if absoluteOffset >= U64_LIMIT {
      return done, Some(Err(PositionOverflow));
    }
    if byte == LF {
      next, exit := EndLine(request, line, done, data);
      return;
    }
    next := done.(bytesScanned := done.bytesScanned + 1);
    ScanningAdds(request, data, done, line.seen);
    line.PushByte(byte, absoluteOffset, pattern, failure, request.Query());
    return next, None;
  }

  lemma CloseLineCounts(limits: ScanLimits, found: Option<ScanMatch>, line: seq<Byte>, done: Progress)
    requires |line| <= done.bytesScanned
    ensures KeepMatch(limits, found,
                      done.(bytesScanned := done.bytesScanned + 1, linesScanned := done.linesScanned + 1))
         == CloseLine(limits, found, |line| + 1, AtLineStart(done, line))
    ensures var (next, stop) := CloseLine(limits, found, |line| + 1, AtLineStart(done, line));
            next.bytesScanned == done.bytesScanned + 1 && next.linesScanned == done.linesScanned + 1
  {
  }

  lemma ScanBegins(request: ScanRequest, data: seq<Byte>)
    ensures Scanning(request, data, NOTHING, [])
  {
    hide ScanFrom;
  }

  /** Handles one buffer; cancellation and deadline are looked at every `INTERRUPT_CHECK_INTERVAL_BYTES`. */
  method ScanChunk(request: ScanRequest, pattern: seq<Byte>, failure: seq<nat>, line: LineCapture, chunk: seq<Byte>,
                   interruptible: bool, done: Progress, sinceCheck: nat, ghost data: seq<Byte>)
    returns (next: Progress, nextSinceCheck: nat, exit: Option<Result<ScanOutcome, ScanError>>)
    requires InStep(request, data, done, line)
    requires done.bytesScanned + |chunk| <= |data|
    requires chunk == data[done.bytesScanned..done.bytesScanned + |chunk|]
    requires done.bytesScanned + |chunk| <= request.limits.maxScanBytes
    requires pattern == FoldAll(request.keyword, request.caseSensitive) && Kmp.FailureTable(pattern, failure)
    modifies line
    ensures exit.Some? ==> Returns(request, data, interruptible, exit.value)
    ensures exit.None? ==> InStep(request, data, next, line) && next.bytesScanned == done.bytesScanned + |chunk|
  {
    hide ScanWithin, FoldAll, Kmp.FailureTable, Scanning, LineCapture.Represents, AtLineStart;
    next, nextSinceCheck := done, sinceCheck;
    for i := 0 to |chunk|
      invariant InStep(request, data, next, line)
      invariant next.bytesScanned == done.bytesScanned + i
    {
      if nextSinceCheck >= INTERRUPT_CHECK_INTERVAL_BYTES {
        var reason := InterruptReason(interruptible);
        if reason.Some? {
          var stopped := StopNow(request, next, line, reason.value, interruptible, data);
          return next, nextSinceCheck, Some(stopped);
        }
        nextSinceCheck := 0;
      }
      nextSinceCheck := nextSinceCheck + 1;
      assert chunk[i] == data[done.bytesScanned + i];
      next, exit := ScanByte(request, pattern, failure, line, chunk[i], next, data);
      if exit.Some? {
        return;
      }
    }
    exit := None;
  }

  /** Stopping for cancellation or deadline. */
  method StopNow(request: ScanRequest, done: Progress, line: LineCapture, reason: ScanStopReason, interruptible: bool,
                 ghost data: seq<Byte>)
    returns (r: Result<ScanOutcome, ScanError>)
    requires InStep(request, data, done, line)
    requires interruptible && (reason == Cancelled || reason == DeadlineExceeded)
    ensures Returns(request, data, interruptible, r)
  {
    hide ScanWithin;
    r := StopHere(request, done, line, reason, data);
    assert r.Ok? ==> InterruptedAfter(request, data, r.value, done.bytesScanned);
  }

  lemma CountsBytes(line: LineCapture, query: LineQuery)
    requires query.Searchable() && line.Represents(query)
    ensures line.lineBytes == |line.seen|
  {
  }

  /** The end of the stream finishes the last line. */
  method ScanEnd(request: ScanRequest, line: LineCapture, done: Progress, ghost data: seq<Byte>)
    returns (outcome: ScanOutcome)
    requires InStep(request, data, done, line)
    requires done.bytesScanned == |data| < request.limits.maxScanBytes
    modifies line`preview
    ensures outcome == ScanWithin(request, data, request.limits.maxScanBytes)
  {
    hide ScanWithin, LineMatch, KeepMatch, Scanning, LineCapture.Represents;
    CountsBytes(line, request.Query());
    ScanEnds(request, data, done, line.seen, request.limits.maxScanBytes);
    if line.lineBytes > 0 {
      var counted := done.(linesScanned := done.linesScanned + 1);
      var kept, stop := FinishLine(line, counted, request.limits, request.Query());
      if stop.Some? {
        return Outcome(request, kept, stop.value, None);
      }
      return Outcome(request, kept, Complete, None);
    }
    return Outcome(request, done, Complete, None);
  }

  /**
   The scan returns what the line-by-line meaning of the bytes is, for every way the reader cuts them into
   chunks and for every buffer size.
   */
  method ScanReader(reader: Reader, request: ScanRequest, interruptible: bool)
    returns (r: Result<ScanOutcome, ScanError>)
    requires reader.Valid() && reader.position == 0
    modifies reader
    ensures request.Validate().Some? ==> r == Err(request.Validate().value)
    ensures request.Validate().None? ==>
              || (r == Err(Io) && reader.faulty)
              || Returns(request, reader.data, interruptible, r)
  {
    hide ScanWithin, Kmp.FailureTable, Scanning, LineCapture.Represents, AtLineStart, InterruptedAfter;
    var invalid := request.Validate();
    if invalid.Some? {
      return Err(invalid.value);
    }
    var pattern := FoldAll(request.keyword, request.caseSensitive);
    var failure := Kmp.BuildFailureTable(pattern);
    var beforeContext := (request.limits.maxLineBytes - |pattern|) / 2;
    var line := new LineCapture(request.startPosition, request.Query(), beforeContext + |pattern|);
    var done := NOTHING;
    var sinceCheck: nat := 0;
    ghost var data := reader.data;
    InStepAtStart(request, data, line);

    while true
      invariant reader.Valid() && reader.position == done.bytesScanned
      invariant InStep(request, data, done, line)
      invariant fresh(line)
      invariant done.bytesScanned <= request.limits.maxScanBytes
      decreases |data| - reader.position, reader.interruptions
    {
      var reason := InterruptReason(interruptible);
      if reason.Some? {
        r := StopNow(request, done, line, reason.value, interruptible, data);
        return;
      }
      if done.bytesScanned >= request.limits.maxScanBytes {
        r := StopAtLimit(request, done, line, data);
        return;
      }
      var remaining := request.limits.maxScanBytes - done.bytesScanned;
      var read := reader.Read(Min(request.limits.readBufferBytes, remaining));
      match read {
        case Interrupted =>
        case Failed => return Err(Io);
        case Chunk(bytes) =>
          if bytes == [] {
            var outcome := ScanEnd(request, line, done, data);
            return Ok(outcome);
          }
          var exit;
          done, sinceCheck, exit := ScanChunk(request, pattern, failure, line, bytes, interruptible, done, sinceCheck,
                                              data);
          if exit.Some? {
            return exit.value;
          }
      }
    }
  }

  lemma InStepAtStart(request: ScanRequest, data: seq<Byte>, line: LineCapture)
    requires request.Query().Searchable() && line.Represents(request.Query()) && line.seen == []
    requires line.Position() == request.startPosition
    ensures InStep(request, data, NOTHING, line)
  {
    hide ScanWithin, LineCapture.Represents;
    ScanBegins(request, data);
  }

  /** The byte budget is used up. */
  method StopAtLimit(request: ScanRequest, done: Progress, line: LineCapture, ghost data: seq<Byte>)
    returns (r: Result<ScanOutcome, ScanError>)
    requires InStep(request, data, done, line) && done.bytesScanned == request.limits.maxScanBytes
    ensures Returns(request, data, false, r)
  {
    hide ScanWithin;
    r := StopHere(request, done, line, ScanByteLimit, data);
  }
}
