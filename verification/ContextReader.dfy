/**
 The bounded context reader over an unreliable stream: its loops compute exactly what `ContextSpec` says,
 unless the read is cancelled, runs out of time or the stream fails.
 */
module ContextReader {
  import opened Wrappers
  import opened Bytes
  import opened Collections
  import opened QueryState
  import opened ContextSpec
  import ScanSpec
  import PageSpec
  import Scanner
  import Utf8

  const INTERRUPT_CHECK_INTERVAL_BYTES: nat := 4 * 1024

  // ---------- errors that the data do not determine ----------

  predicate Disturbance(e: ContextReadError, interruptible: bool, unreliable: bool) {
    (interruptible && (e.Cancelled? || e.DeadlineExceeded?)) || (unreliable && e.Io?)
  }

  /** The result is the expected one, or something outside the data went wrong. */
  predicate Gives<T(==)>(r: Result<T, ContextReadError>, expected: Result<T, ContextReadError>, interruptible: bool,
                         unreliable: bool)
  {
    r == expected || (r.Err? && Disturbance(r.error, interruptible, unreliable))
  }

  method CheckInterrupted(interruptible: bool) returns (e: Option<ContextReadError>)
    ensures e.Some? ==> interruptible && (e.value.Cancelled? || e.value.DeadlineExceeded?)
  {
    var reason := Scanner.InterruptReason(interruptible);
    match reason {
      case None => return None;
      case Some(why) => return Some(if why.Cancelled? then ContextReadError.Cancelled
                                    else ContextReadError.DeadlineExceeded);
    }
  }

  // ---------- text ----------

  /** `bounded_text`: both ends are moved inwards to char boundaries. */
  method BoundText(text: seq<Byte>, maximum: nat, needle: Option<Needle>) returns (content: seq<Byte>, cut: bool)
    ensures (content, cut) == BoundedText(text, maximum, needle)
  {
    hide Utf8.CharBoundary, FindFolded, CeilBoundary, PageSpec.FloorBoundary;
    if |text| <= maximum {
      return text, false;
    }
    var start, requiredEnd := 0, 0;
    if needle.Some? {
      var at := FindFolded(text, needle.value.keyword, needle.value.caseSensitive);
      if at.Some? {
        start := SaturatingSub(at.value, SaturatingSub(maximum, |needle.value.keyword|) / 2);
        requiredEnd := at.value + |needle.value.keyword|;
      }
    }
    if requiredEnd > start + maximum {
      start := SaturatingSub(requiredEnd, maximum);
    }
    assert start == CropStart(text, maximum, needle) <= |text|;
    start := NextBoundary(text, start);
    var end := PreviousBoundary(text, start, Min(start + maximum, |text|));
    return text[start..end], true;
  }

  method NextBoundary(text: seq<Byte>, at: nat) returns (start: nat)
    requires at <= |text|
    ensures start == CeilBoundary(text, at)
  {
    start := at;
    while start < |text| && !Utf8.CharBoundary(text, start)
      invariant start <= |text| && CeilBoundary(text, start) == CeilBoundary(text, at)
    {
      start := start + 1;
    }
  }

  method PreviousBoundary(text: seq<Byte>, start: nat, at: nat) returns (end: nat)
    requires start <= at <= |text| && Utf8.CharBoundary(text, start)
    ensures end == PageSpec.FloorBoundary(text, at) >= start
  {
    end := at;
    while end > start && !Utf8.CharBoundary(text, end)
      invariant start <= end <= |text| && PageSpec.FloorBoundary(text, end) == PageSpec.FloorBoundary(text, at)
    {
      end := end - 1;
    }
  }

  method ShowLine(raw: RawLine, lineNumber: nat, isMatchLine: bool, maximum: nat, needle: Option<Needle>)
    returns (line: ContextLine)
    ensures line == IntoContextLine(raw, lineNumber, isMatchLine, maximum, needle)
  {
    hide BoundedText;
    var preview := raw.preview;
    var coversLineEnd := raw.previewStart + |preview| == raw.originalLineBytes;
    if coversLineEnd && preview != [] && preview[|preview| - 1] == CR {
      preview := preview[..|preview| - 1];
    }
    var content, cut := BoundText(Utf8.Lossy(preview), maximum, needle);
    return ContextLine(lineNumber, content, raw.previewStart > 0 || !coversLineEnd || cut, !Utf8.Valid(preview),
                       raw.originalLineBytes, isMatchLine);
  }

  // ---------- lines before the match ----------

  /** `read_exact_controlled`. */
  method ReadExact(reader: Scanner.Reader, size: nat, interruptible: bool)
    returns (r: Result<seq<Byte>, ContextReadError>)
    requires reader.Valid()
    modifies reader
    ensures reader.Valid() && reader.interruptions <= old(reader.interruptions)
    ensures var from := old(reader.position);
            Gives(r, if from + size <= |reader.data| then Ok(reader.data[from..from + size]) else Err(FileChanged),
                  interruptible, reader.faulty)
  {
    var bytes: seq<Byte> := [];
    ghost var from := reader.position;
    while |bytes| < size
      invariant reader.Valid() && reader.interruptions <= old(reader.interruptions)
      invariant |bytes| <= size && reader.position == from + |bytes| && bytes == reader.data[from..reader.position]
      decreases size - |bytes|, reader.interruptions
    {
      var interrupted := CheckInterrupted(interruptible);
      if interrupted.Some? {
        return Err(interrupted.value);
      }
      var chunk := reader.Read(Min(size - |bytes|, 64 * 1024));
      match chunk {
        case Chunk(part) =>
          if part == [] {
            return Err(FileChanged);
          }
          bytes := bytes + part;
        case Interrupted =>
        case Failed =>
          return Err(ContextReadError.Io);
      }
    }
    return Ok(bytes);
  }

  lemma LastSnoc<T>(s: seq<T>, x: T, count: nat)
    requires count > 0
    ensures var kept := Last(s, count);
            Last(s + [x], count) == (if |kept| == count then kept[1..] else kept) + [x]
  {
    if |s| >= count {
      var k := |s| - count;
      assert (s + [x])[k + 1..] == s[k + 1..] + [x];
      assert s[k..][1..] == s[k + 1..];
    }
  }

  lemma LastOfNone<T>(count: nat)
    ensures Last<T>([], count) == []
  {
  }

  /** The bounded queue of ranges ends up holding the last lines of the window. */
  method CollectRanges(window: seq<Byte>, fullStart: nat, requested: nat)
    returns (ranges: seq<Range>, currentStart: nat)
    requires requested > 0 && fullStart <= |window|
    ensures ranges == Last(LineRanges(window, fullStart, |window|), requested)
    ensures currentStart == LineStart(window, fullStart, |window|)
  {
    hide LineRanges, LineStart, Last;
    ranges, currentStart := [], fullStart;
    RangesStart(window, fullStart);
    LastOfNone<Range>(requested);
    for index := fullStart to |window|
      invariant currentStart == LineStart(window, fullStart, index)
      invariant ranges == Last(LineRanges(window, fullStart, index), requested)
    {
      RangesStep(window, fullStart, index + 1);
      if window[index] == LF {
        LastSnoc(LineRanges(window, fullStart, index), Range(currentStart, index), requested);
        if |ranges| == requested {
          ranges := ranges[1..];
        }
        ranges := ranges + [Range(currentStart, index)];
        currentStart := index + 1;
      }
    }
  }

  method ShowAll(window: seq<Byte>, ranges: seq<Range>, firstNumber: nat, maximum: nat)
    returns (lines: seq<ContextLine>)
    requires forall i :: 0 <= i < |ranges| ==> ranges[i].start <= ranges[i].end <= |window|
    ensures lines == ShowRanges(window, ranges, firstNumber, maximum)
  {
    hide ContextLineFromBytes;
    lines := [];
    for index := 0 to |ranges|
      invariant lines == ShowRanges(window, ranges[..index], firstNumber, maximum)
    {
      assert ranges[..index + 1][..index] == ranges[..index];
      var line := FromBytes(firstNumber + index, window[ranges[index].start..ranges[index].end], maximum);
      lines := lines + [line];
    }
    assert ranges[..|ranges|] == ranges;
  }

  /** `context_line_from_bytes`. */
  method FromBytes(lineNumber: nat, bytes: seq<Byte>, maximum: nat) returns (line: ContextLine)
    ensures line == ContextLineFromBytes(lineNumber, bytes, maximum)
  {
    hide BoundedText;
    var display := ScanSpec.StripCarriageReturn(bytes, true);
    var preview := display[..Min(|display|, maximum)];
    var content, cut := BoundText(Utf8.Lossy(preview), maximum, None);
    return ContextLine(lineNumber, content, |preview| < |display| || cut, !Utf8.Valid(preview), |bytes|, false);
  }

  /** A window that ends in a line feed leaves no partial line. */
  lemma NothingLeft(window: seq<Byte>, fullStart: nat)
    requires fullStart <= |window| && window != [] && window[|window| - 1] == LF
    ensures LineStart(window, fullStart, |window|) == |window|
  {
  }

  method ReadBeforeLines(reader: Scanner.Reader, reference: MatchReferenceData, requested: nat,
                         limits: ContextReadLimits, interruptible: bool)
    returns (r: Result<BeforeRead, ContextReadError>)
    requires reader.Valid() && limits.maxBeforeScanBytes > 0
    modifies reader
    ensures reader.Valid() && reader.interruptions <= old(reader.interruptions)
    ensures Gives(r, ContextSpec.ReadBefore(reader.data, reference, requested, limits), interruptible, reader.faulty)
  {
    hide LineRanges, Last, ShowRanges, LineStart;
    if requested == 0 || reference.lineStartOffset == 0 {
      return Ok(BeforeRead([], 0, false));
    }
    var scanBytes := Min(reference.lineStartOffset, limits.maxBeforeScanBytes);
    var windowStart := reference.lineStartOffset - scanBytes;
    var aligned, bytesScanned := true, 0;
    if windowStart > 0 {
      reader.Seek(windowStart - 1);
      var previous := ReadExact(reader, 1, interruptible);
      if previous.Err? {
        return Err(previous.error);
      }
      bytesScanned := 1;
      aligned := previous.value[0] == LF;
    }
    reader.Seek(windowStart);
    var window := ReadExact(reader, scanBytes, interruptible);
    if window.Err? {
      return Err(window.error);
    }
    bytesScanned := bytesScanned + scanBytes;
    assert window.value == reader.data[windowStart..reference.lineStartOffset];
    r := LinesOfWindow(window.value, aligned, windowStart, bytesScanned, reference.lineNumber, requested,
                       limits.maxLineBytes);
  }

  /** The lines of the window, once it has been read. */
  method LinesOfWindow(window: seq<Byte>, aligned: bool, windowStart: nat, bytesScanned: nat, lineNumber: nat,
                       requested: nat, maximum: nat) returns (r: Result<BeforeRead, ContextReadError>)
    requires requested > 0 && bytesScanned == |window| + (if windowStart == 0 then 0 else 1)
    ensures r == BeforeInWindow(window, aligned, windowStart, lineNumber, requested, maximum)
  {
    hide LineRanges, ShowRanges, LineStart;
    if window == [] || window[|window| - 1] != LF {
      return Err(FileChanged);
    }
    var fullStart := FullStart(window, aligned);
    var ranges, currentStart := CollectRanges(window, fullStart, requested);
    NothingLeft(window, fullStart);
    if currentStart != |window| {
      assert false;
    }
    if lineNumber < |ranges| {
      return Err(FileChanged);
    }
    var lines := ShowAll(window, ranges, lineNumber - |ranges|, maximum);
    return Ok(BeforeRead(lines, bytesScanned, |ranges| < requested && windowStart > 0));
  }

  // ---------- buffered reading ----------

  /** Bytes that were read ahead, in front of a stream. */
  class BufferedReader {
    const inner: Scanner.Reader
    const capacity: nat
    var buffer: seq<Byte>

    ghost predicate Valid()
      reads this, inner
    {
      && inner.Valid() && capacity > 0
      && |buffer| <= inner.position && buffer == inner.data[inner.position - |buffer|..inner.position]
    }

    /** What has not been consumed. */
    ghost function Rest(): seq<Byte>
      requires Valid()
      reads this, inner
    {
      From(inner.data, inner.position - |buffer|)
    }

    constructor (inner: Scanner.Reader, capacity: nat)
      requires inner.Valid() && capacity > 0
      ensures Valid() && this.inner == inner && this.capacity == capacity && Rest() == From(inner.data, inner.position)
    {
      this.inner := inner;
      this.capacity := capacity;
      this.buffer := [];
    }

    /** `fill_buf`: an interruption is reported like any other failure. */
    method FillBuf() returns (available: Option<seq<Byte>>)
      requires Valid()
      modifies this, inner
      ensures Valid() && Rest() == old(Rest()) && inner.interruptions <= old(inner.interruptions)
      ensures available.None? ==> inner.faulty || old(inner.interruptions) > 0
      ensures available.Some? ==> available.value == buffer && (buffer == [] <==> Rest() == [])
    {
      if buffer == [] {
        var chunk := inner.Read(capacity);
        if !chunk.Chunk? {
          return None;
        }
        buffer := chunk.bytes;
      }
      return Some(buffer);
    }

    method Consume(count: nat)
      requires Valid() && count <= |buffer|
      modifies this`buffer
      ensures Valid() && count <= |old(Rest())| && Rest() == From(old(Rest()), count)
    {
      buffer := buffer[count..];
    }
  }

  // ---------- one line ----------

  /** How far the keyword has been checked after `seen` bytes of the line. */
  function Checked(spec: Option<MatchSpec>, seen: nat): nat {
    if spec.None? then 0 else Min(SaturatingSub(seen, spec.value.relativeOffset), |spec.value.keyword|)
  }

  lemma VisibleAppend(line: seq<Byte>, b: Byte, start: nat, width: nat)
    ensures Visible(line + [b], start, width)
         == Visible(line, start, width) + if start <= |line| < start + width then [b] else []
  {
  }

  lemma AgreesAppend(spec: MatchSpec, line: seq<Byte>, b: Byte)
    requires spec.Agrees(line)
    ensures var p := |line|;
            spec.Agrees(line + [b]) <==>
              (spec.relativeOffset <= p < spec.End() ==>
                 Fold(b, spec.caseSensitive) == Fold(spec.keyword[p - spec.relativeOffset], spec.caseSensitive))
  {
    var p := |line|;
    assert forall i :: 0 <= i < p ==> (line + [b])[i] == line[i];
    assert (line + [b])[p] == b;
  }

  lemma DisagreesLater(spec: Option<MatchSpec>, line: seq<Byte>, more: seq<Byte>)
    requires line <= more && !SpecAgrees(spec, line)
    ensures !SpecAgrees(spec, more)
  {
  }

  /** What the loops of `read_line` have gathered from the first `seen` bytes of the line. */
  datatype Gathered = Gathered(preview: seq<Byte>, keywordChecked: nat)

  ghost predicate GatheredFrom(g: Gathered, line: seq<Byte>, start: nat, width: nat, spec: Option<MatchSpec>) {
    && g.preview == Visible(line, start, width)
    && g.keywordChecked == Checked(spec, |line|)
    && SpecAgrees(spec, line)
  }

  /** One byte of the line: `None` when it contradicts the keyword. */
  method TakeByte(ghost line: seq<Byte>, position: nat, b: Byte, start: nat, width: nat, spec: Option<MatchSpec>,
                  g: Gathered)
    returns (next: Option<Gathered>)
    requires position == |line| && GatheredFrom(g, line, start, width, spec)
    ensures next.None? <==> !SpecAgrees(spec, line + [b])
    ensures next.Some? ==> GatheredFrom(next.value, line + [b], start, width, spec)
  {
    hide MatchSpec.Agrees, Visible;
    var checked := g.keywordChecked;
    if spec.Some? {
      AgreesAppend(spec.value, line, b);
      if spec.value.relativeOffset <= position < spec.value.End() {
        var expected := spec.value.keyword[checked];
        if Fold(b, spec.value.caseSensitive) != Fold(expected, spec.value.caseSensitive) {
          return None;
        }
        checked := checked + 1;
      }
    }
    VisibleAppend(line, b, start, width);
    var preview := g.preview;
    if start <= position < start + width {
      preview := preview + [b];
    }
    return Some(Gathered(preview, checked));
  }

  /** The line has not ended. */
  predicate Unended(line: seq<Byte>) {
    LF !in line
  }

  lemma UnendedAppend(line: seq<Byte>, b: Byte)
    ensures Unended(line + [b]) <==> Unended(line) && b != LF
    ensures Unended([])
  {
  }

  /** What the bytes of one buffer did to the line. */
  datatype BufferEnd = LineEnded | LineContinues | Mismatch | Stopped(error: ContextReadError)

  /** The inner loop of `read_line`: at most `allowed` bytes of the buffer, up to a line feed. */
  method TakeBuffer(ghost line: seq<Byte>, position: nat, available: seq<Byte>, allowed: nat, start: nat, width: nat,
                    spec: Option<MatchSpec>, g: Gathered, interrupt: nat, interruptible: bool)
    returns (end: BufferEnd, next: Gathered, taken: nat, interruptBytes: nat)
    requires position == |line| && GatheredFrom(g, line, start, width, spec) && Unended(line) && allowed <= |available|
    requires interrupt < INTERRUPT_CHECK_INTERVAL_BYTES
    ensures interruptBytes < INTERRUPT_CHECK_INTERVAL_BYTES || end.Stopped? || end.Mismatch?
    ensures taken <= allowed && Unended(line + available[..taken])
    ensures end.LineEnded? ==> taken < allowed && available[taken] == LF
    ensures end.LineContinues? ==> taken == allowed
    ensures end.LineEnded? || end.LineContinues? ==> GatheredFrom(next, line + available[..taken], start, width, spec)
    ensures end.Mismatch? ==>
              taken < allowed && Unended(line + available[..taken + 1])
              && !SpecAgrees(spec, line + available[..taken + 1])
    ensures end.Stopped? ==> Disturbance(end.error, interruptible, false)
  {
    hide GatheredFrom, SpecAgrees, Unended;
    next, taken, interruptBytes := g, 0, interrupt;
    assert line + available[..0] == line;
    while taken < allowed
      invariant taken <= allowed && Unended(line + available[..taken])
                && interruptBytes < INTERRUPT_CHECK_INTERVAL_BYTES
      invariant GatheredFrom(next, line + available[..taken], start, width, spec)
    {
      var b := available[taken];
      interruptBytes := interruptBytes + 1;
      if interruptBytes >= INTERRUPT_CHECK_INTERVAL_BYTES {
        var interrupted := CheckInterrupted(interruptible);
        if interrupted.Some? {
          return Stopped(interrupted.value), next, taken, interruptBytes;
        }
        interruptBytes := 0;
      }
      if b == LF {
        return LineEnded, next, taken, interruptBytes;
      }
      assert line + available[..taken + 1] == (line + available[..taken]) + [b];
      UnendedAppend(line + available[..taken], b);
      var after := TakeByte(line + available[..taken], position + taken, b, start, width, spec, next);
      if after.None? {
        return Mismatch, next, taken, interruptBytes;
      }
      next, taken := after.value, taken + 1;
    }
    return LineContinues, next, taken, interruptBytes;
  }

  /** `seen` bytes of the line have been read and it has not ended. */
  lemma LineGoesOn(rest: seq<Byte>, seen: nat)
    requires seen <= |rest| && Unended(rest[..seen])
    ensures seen <= NewlineIndex(rest)
    ensures seen < |rest| && rest[seen] == LF ==> NewlineIndex(rest) == seen
    ensures seen == |rest| ==> NewlineIndex(rest) == seen
  {
    forall i | 0 <= i < seen
      ensures rest[i] != LF
    {
      assert rest[..seen][i] in rest[..seen];
    }
  }

  lemma NothingGathered(start: nat, width: nat, spec: Option<MatchSpec>)
    ensures GatheredFrom(Gathered([], 0), [], start, width, spec)
  {
  }

  lemma SpecRefused(rest: seq<Byte>, budget: nat, maxLineBytes: nat, spec: Option<MatchSpec>)
    requires CheckSpec(spec, maxLineBytes).Some?
    ensures ContextSpec.ReadLine(rest, budget, maxLineBytes, spec) == Err(CheckSpec(spec, maxLineBytes).value)
  {
  }

  lemma WrongByte(rest: seq<Byte>, seen: nat, budget: nat, maxLineBytes: nat, spec: Option<MatchSpec>)
    requires CheckSpec(spec, maxLineBytes).None? && seen <= budget && seen <= |rest| && Unended(rest[..seen])
    requires !SpecAgrees(spec, rest[..seen])
    ensures ContextSpec.ReadLine(rest, budget, maxLineBytes, spec) == Err(FileChanged)
  {
    hide SpecAgrees, Visible;
    LineGoesOn(rest, seen);
    DisagreesLater(spec, rest[..seen], rest[..Min(NewlineIndex(rest), budget)]);
  }

  ghost predicate AtRest(reader: BufferedReader, rest: seq<Byte>, consumed: nat)
    reads reader, reader.inner
  {
    reader.Valid() && consumed <= |rest| && reader.Rest() == From(rest, consumed)
  }

  /** What one buffer brings: the line goes on, or the call is over. */
  datatype Progress =
    | Going(gathered: Gathered, seen: nat, interruptBytes: nat)
    | Over(result: Result<LineStep, ContextReadError>)

  /** One turn of the outer loop of `read_line`, with `seen` bytes of the line behind it. */
  method ReadBuffer(reader: BufferedReader, ghost rest: seq<Byte>, seen: nat, maxLineBytes: nat, budget: nat,
                    spec: Option<MatchSpec>, g: Gathered, interruptBytes: nat, interruptible: bool)
    returns (progress: Progress)
    requires AtRest(reader, rest, seen) && seen < budget && Unended(rest[..seen])
    requires CheckSpec(spec, maxLineBytes).None? && interruptBytes < INTERRUPT_CHECK_INTERVAL_BYTES
    requires GatheredFrom(g, rest[..seen], StartOf(spec, maxLineBytes), maxLineBytes, spec)
    modifies reader, reader.inner
    ensures reader.Valid() && reader.inner.interruptions <= old(reader.inner.interruptions)
    ensures progress.Going? ==>
              && seen < progress.seen <= budget && AtRest(reader, rest, progress.seen) && Unended(rest[..progress.seen])
              && GatheredFrom(progress.gathered, rest[..progress.seen], StartOf(spec, maxLineBytes), maxLineBytes, spec)
              && progress.interruptBytes < INTERRUPT_CHECK_INTERVAL_BYTES
    ensures progress.Over? ==>
              && Gives(progress.result, ContextSpec.ReadLine(rest, budget, maxLineBytes, spec), interruptible,
                       reader.inner.faulty || old(reader.inner.interruptions) > 0)
              && (progress.result.Ok? ==>
                    progress.result.value.consumed <= |rest| && AtRest(reader, rest, progress.result.value.consumed))
  {
    hide BufferedReader.Valid, BufferedReader.Rest, From, SpecAgrees, GatheredFrom, Unended, CheckSpec, StartOf,
         NewlineIndex, ContextSpec.ReadLine;
    LineGoesOn(rest, seen);
    var available := reader.FillBuf();
    if available.None? {
      return Over(Err(ContextReadError.Io));
    }
    if available.value == [] {
      var r := AtEnd(rest, seen, budget, maxLineBytes, spec, g);
      return Over(r);
    }
    progress := TakeAvailable(reader, rest, seen, maxLineBytes, budget, spec, g, interruptBytes, interruptible);
  }

  /** The buffered bytes, as far as the budget and the line go. */
  method TakeAvailable(reader: BufferedReader, ghost rest: seq<Byte>, seen: nat, maxLineBytes: nat, budget: nat,
                       spec: Option<MatchSpec>, g: Gathered, interruptBytes: nat, interruptible: bool)
    returns (progress: Progress)
    requires AtRest(reader, rest, seen) && seen < budget && Unended(rest[..seen]) && reader.buffer != []
    requires CheckSpec(spec, maxLineBytes).None? && interruptBytes < INTERRUPT_CHECK_INTERVAL_BYTES
    requires GatheredFrom(g, rest[..seen], StartOf(spec, maxLineBytes), maxLineBytes, spec)
    modifies reader`buffer
    ensures reader.Valid()
    ensures progress.Going? ==>
              && seen < progress.seen <= budget && AtRest(reader, rest, progress.seen) && Unended(rest[..progress.seen])
              && GatheredFrom(progress.gathered, rest[..progress.seen], StartOf(spec, maxLineBytes), maxLineBytes, spec)
              && progress.interruptBytes < INTERRUPT_CHECK_INTERVAL_BYTES
    ensures progress.Over? ==>
              && Gives(progress.result, ContextSpec.ReadLine(rest, budget, maxLineBytes, spec), interruptible, false)
              && (progress.result.Ok? ==>
                    progress.result.value.consumed <= |rest| && AtRest(reader, rest, progress.result.value.consumed))
  {
    hide BufferedReader.Valid, BufferedReader.Rest, From, SpecAgrees, GatheredFrom, Unended, CheckSpec, StartOf,
         NewlineIndex, ContextSpec.ReadLine;
    var available := reader.buffer;
    BufferIsNext(reader, rest, seen);
    var allowed := Min(|reader.buffer|, budget - seen);
    var end, next, taken, count :=
      TakeBuffer(rest[..seen], seen, reader.buffer, allowed, StartOf(spec, maxLineBytes), maxLineBytes, spec, g,
                 interruptBytes, interruptible);
    TakenLine(rest, seen, available, taken);
    match end {
      case Stopped(e) =>
        return Over(Err(e));
      case Mismatch =>
        TakenLine(rest, seen, available, taken + 1);
        WrongByte(rest, seen + taken + 1, budget, maxLineBytes, spec);
        return Over(Err(FileChanged));
      case LineEnded =>
        reader.Consume(taken + 1);
        RestConsumed(rest, seen, taken + 1);
        LineGoesOn(rest, seen + taken);
        var r := AtLineFeed(rest, seen + taken, budget, maxLineBytes, spec, next);
        return Over(r);
      case LineContinues =>
        reader.Consume(taken);
        RestConsumed(rest, seen, taken);
        if allowed < |available| || seen + taken == budget {
          LineGoesOn(rest, seen + taken);
          var r := OutOfBudget(rest, budget, maxLineBytes, spec, next);
          return Over(r);
        }
        return Going(next, seen + taken, count);
    }
  }

  /** `read_line`: a line in as many buffers as it takes, within the scan budget. */
  method ReadLine(reader: BufferedReader, maxLineBytes: nat, budget: nat, spec: Option<MatchSpec>, interruptible: bool)
    returns (r: Result<LineStep, ContextReadError>)
    requires reader.Valid()
    modifies reader, reader.inner
    ensures reader.Valid() && reader.inner.interruptions <= old(reader.inner.interruptions)
    ensures Gives(r, ContextSpec.ReadLine(old(reader.Rest()), budget, maxLineBytes, spec), interruptible,
                  reader.inner.faulty || old(reader.inner.interruptions) > 0)
    ensures r.Ok? ==> r.value.consumed <= |old(reader.Rest())| && AtRest(reader, old(reader.Rest()), r.value.consumed)
  {
    hide BufferedReader.Valid, BufferedReader.Rest, From, SpecAgrees, GatheredFrom, Unended, CheckSpec, StartOf,
         NewlineIndex, ContextSpec.ReadLine;
    var problem := CheckSpec(spec, maxLineBytes);
    if problem.Some? {
      SpecRefused(reader.Rest(), budget, maxLineBytes, spec);
      return Err(problem.value);
    }
    ghost var rest := reader.Rest();
    var g, seen: nat, interruptBytes: nat := Gathered([], 0), 0, 0;
    NothingGathered(StartOf(spec, maxLineBytes), maxLineBytes, spec);
    UnendedAppend([], LF);
    assert rest[..0] == [];
    while true
      invariant reader.Valid() && reader.inner.interruptions <= old(reader.inner.interruptions)
      invariant seen <= budget && AtRest(reader, rest, seen) && Unended(rest[..seen])
      invariant GatheredFrom(g, rest[..seen], StartOf(spec, maxLineBytes), maxLineBytes, spec)
      invariant interruptBytes < INTERRUPT_CHECK_INTERVAL_BYTES
      decreases |rest| - seen
    {
      var interrupted := CheckInterrupted(interruptible);
      if interrupted.Some? {
        return Err(interrupted.value);
      }
      if seen == budget {
        LineGoesOn(rest, seen);
        r := OutOfBudget(rest, budget, maxLineBytes, spec, g);
        return;
      }
      var progress := ReadBuffer(reader, rest, seen, maxLineBytes, budget, spec, g, interruptBytes, interruptible);
      match progress {
        case Over(result) =>
          return result;
        case Going(gathered, position, count) =>
          g, seen, interruptBytes := gathered, position, count;
      }
    }
  }

  lemma RestConsumed(rest: seq<Byte>, consumed: nat, more: nat)
    requires consumed + more <= |rest|
    ensures From(From(rest, consumed), more) == From(rest, consumed + more)
  {
  }

  lemma BufferIsNext(reader: BufferedReader, rest: seq<Byte>, seen: nat)
    requires AtRest(reader, rest, seen)
    ensures seen + |reader.buffer| <= |rest| && rest[seen..seen + |reader.buffer|] == reader.buffer
  {
    var ahead := reader.Rest();
    assert forall i :: 0 <= i < |reader.buffer| ==> reader.buffer[i] == ahead[i];
  }

  lemma TakenLine(rest: seq<Byte>, seen: nat, available: seq<Byte>, taken: nat)
    requires seen + |available| <= |rest| && rest[seen..seen + |available|] == available && taken <= |available|
    ensures rest[..seen] + available[..taken] == rest[..seen + taken]
    ensures taken < |available| ==> rest[seen + taken] == available[taken]
  {
    assert available[..taken] == rest[seen..seen + taken];
  }

  /** The budget is used up before the line ends. */
  method OutOfBudget(ghost rest: seq<Byte>, budget: nat, maxLineBytes: nat, spec: Option<MatchSpec>, g: Gathered)
    returns (r: Result<LineStep, ContextReadError>)
    requires CheckSpec(spec, maxLineBytes).None? && budget <= NewlineIndex(rest)
    requires GatheredFrom(g, rest[..budget], StartOf(spec, maxLineBytes), maxLineBytes, spec)
    ensures r == ContextSpec.ReadLine(rest, budget, maxLineBytes, spec)
    ensures r.Ok? ==> r.value.consumed == budget
  {
    hide MatchSpec.Agrees, Visible;
    if spec.Some? && g.keywordChecked < |spec.value.keyword| {
      return Err(MatchOutsideScanBudget);
    }
    return Ok(LineStep(BudgetExhausted, budget));
  }

  /** The data end, perhaps behind an unterminated line. */
  method AtEnd(ghost rest: seq<Byte>, seen: nat, budget: nat, maxLineBytes: nat, spec: Option<MatchSpec>, g: Gathered)
    returns (r: Result<LineStep, ContextReadError>)
    requires CheckSpec(spec, maxLineBytes).None? && NewlineIndex(rest) == |rest| == seen < budget
    requires GatheredFrom(g, rest[..seen], StartOf(spec, maxLineBytes), maxLineBytes, spec)
    ensures r == ContextSpec.ReadLine(rest, budget, maxLineBytes, spec)
    ensures r.Ok? ==> r.value.consumed == seen
  {
    hide MatchSpec.Agrees, Visible;
    if seen == 0 {
      return Ok(LineStep(Eof, 0));
    }
    if spec.Some? && g.keywordChecked < |spec.value.keyword| {
      return Err(FileChanged);
    }
    return Ok(LineStep(Complete(RawLine(g.preview, StartOf(spec, maxLineBytes), seen)), seen));
  }

  method AtLineFeed(ghost rest: seq<Byte>, seen: nat, budget: nat, maxLineBytes: nat, spec: Option<MatchSpec>,
                    g: Gathered)
    returns (r: Result<LineStep, ContextReadError>)
    requires CheckSpec(spec, maxLineBytes).None? && seen == NewlineIndex(rest) < |rest| && seen < budget
    requires GatheredFrom(g, rest[..seen], StartOf(spec, maxLineBytes), maxLineBytes, spec)
    ensures r == ContextSpec.ReadLine(rest, budget, maxLineBytes, spec)
    ensures r.Ok? ==> r.value.consumed == seen + 1
  {
    hide MatchSpec.Agrees, Visible;
    if spec.Some? && g.keywordChecked < |spec.value.keyword| {
      return Err(FileChanged);
    }
    return Ok(LineStep(Complete(RawLine(g.preview, StartOf(spec, maxLineBytes), seen)), seen + 1));
  }

  // ---------- the match line and the lines behind it ----------

  method ReadMatchAndAfter(stream: Scanner.Reader, reference: MatchReferenceData, requested: nat,
                           limits: ContextReadLimits, interruptible: bool)
    returns (r: Result<ForwardRead, ContextReadError>)
    requires stream.Valid() && reference.Valid() && limits.readBufferBytes > 0
    modifies stream
    ensures stream.Valid() && stream.interruptions <= old(stream.interruptions)
    ensures Gives(r, ContextSpec.ReadForward(stream.data, reference, requested, limits), interruptible,
                  stream.faulty || old(stream.interruptions) > 0)
  {
    hide ContextSpec.ReadLine, IntoContextLine, ContextSpec.ReadAfter, MatchReferenceData.Valid, NewlineIndex;
    stream.Seek(reference.lineStartOffset);
    var reader := new BufferedReader(stream, limits.readBufferBytes);
    ghost var rest := RestFrom(stream.data, reference.lineStartOffset);
    var step := ReadLine(reader, limits.maxLineBytes, limits.maxForwardScanBytes, SpecOf(reference), interruptible);
    if step.Err? {
      return Err(step.error);
    }
    match step.value.read {
      case Eof => return Err(FileChanged);
      case BudgetExhausted => return Err(MatchLineScanLimit);
      case Complete(raw) =>
        var used := step.value.consumed;
        var matchLine := ShowLine(raw, reference.lineNumber, true, limits.maxLineBytes, NeedleOf(reference));
        var after := ReadAfter(reader, limits.maxForwardScanBytes - used, requested, reference.lineNumber + 1,
                               limits.maxLineBytes, interruptible);
        if after.Err? {
          return Err(after.error);
        }
        return Ok(ForwardRead(matchLine, after.value, used + after.value.bytesScanned));
    }
  }

  /** The loop over the lines behind the match. */
  method ReadAfter(reader: BufferedReader, budget: nat, count: nat, number: nat, maxLineBytes: nat, interruptible: bool)
    returns (r: Result<AfterRead, ContextReadError>)
    requires reader.Valid()
    modifies reader, reader.inner
    ensures reader.Valid() && reader.inner.interruptions <= old(reader.inner.interruptions)
    ensures Gives(r, ContextSpec.ReadAfter(old(reader.Rest()), budget, count, number, maxLineBytes), interruptible,
                  reader.inner.faulty || old(reader.inner.interruptions) > 0)
  {
    hide BufferedReader.Valid, BufferedReader.Rest, From, ContextSpec.ReadLine, IntoContextLine, Prepended;
    ghost var rest := reader.Rest();
    var lines: seq<ContextLine>, scanned: nat, remaining: nat, truncated := [], 0, budget, false;
    ghost var whole := ContextSpec.ReadAfter(rest, budget, count, number, maxLineBytes);
    ghost var behind := rest;
    PrependedNothing(whole);
    for index := 0 to count
      invariant reader.Valid() && reader.inner.interruptions <= old(reader.inner.interruptions)
      invariant reader.Rest() == behind && scanned + remaining == budget
      invariant whole == Prepended(lines, scanned,
                                   ContextSpec.ReadAfter(behind, remaining, count - index, number + index,
                                                         maxLineBytes))
    {
      var step := ReadLine(reader, maxLineBytes, remaining, None, interruptible);
      if step.Err? {
        PrependedError(lines, scanned, step.error);
        return Err(step.error);
      }
      match step.value.read {
        case Eof =>
          PrependedEnd(lines, scanned, AfterRead([], 0, false));
          return Ok(AfterRead(lines, scanned, false));
        case BudgetExhausted =>
          PrependedEnd(lines, scanned, AfterRead([], step.value.consumed, true));
          return Ok(AfterRead(lines, scanned + step.value.consumed, true));
        case Complete(raw) =>
          if number + index >= U64_LIMIT {
            PrependedError(lines, scanned, ContextReadError.CounterOverflow);
            return Err(ContextReadError.CounterOverflow);
          }
          var line := ShowLine(raw, number + index, false, maxLineBytes, None);
          AfterLine(behind, remaining, count - index, number + index, maxLineBytes);
          PrependedMore(lines, scanned, line, step.value.consumed,
                        ContextSpec.ReadAfter(From(behind, step.value.consumed), remaining - step.value.consumed,
                                              count - index - 1,
                                              number + index + 1, maxLineBytes));
          lines := lines + [line];
          scanned, remaining := scanned + step.value.consumed, remaining - step.value.consumed;
          behind := From(behind, step.value.consumed);
      }
    }
    PrependedEnd(lines, scanned, AfterRead([], 0, false));
    return Ok(AfterRead(lines, scanned, false));
  }

  /** Lines already read, in front of those that are still to come. */
  function Prepended(lines: seq<ContextLine>, scanned: nat, rest: Result<AfterRead, ContextReadError>)
    : Result<AfterRead, ContextReadError>
  {
    match rest
    case Err(e) => Err(e)
    case Ok(more) => Ok(AfterRead(lines + more.lines, scanned + more.bytesScanned, more.truncated))
  }

  lemma PrependedNothing(rest: Result<AfterRead, ContextReadError>)
    ensures Prepended([], 0, rest) == rest
  {
    if rest.Ok? {
      assert [] + rest.value.lines == rest.value.lines;
    }
  }

  lemma PrependedEnd(lines: seq<ContextLine>, scanned: nat, rest: AfterRead)
    requires rest.lines == []
    ensures Prepended(lines, scanned, Ok(rest)) == Ok(AfterRead(lines, scanned + rest.bytesScanned, rest.truncated))
  {
    assert lines + [] == lines;
  }

  lemma PrependedError(lines: seq<ContextLine>, scanned: nat, e: ContextReadError)
    ensures Prepended(lines, scanned, Err(e)) == Err(e)
  {
  }

  /** One line more, by the definition of the specification. */
  lemma AfterLine(rest: seq<Byte>, budget: nat, count: nat, number: nat, maxLineBytes: nat)
    requires count > 0 && number < U64_LIMIT
    requires ContextSpec.ReadLine(rest, budget, maxLineBytes, None).Ok?
    requires ContextSpec.ReadLine(rest, budget, maxLineBytes, None).value.read.Complete?
    ensures var step := ContextSpec.ReadLine(rest, budget, maxLineBytes, None).value;
            ContextSpec.ReadAfter(rest, budget, count, number, maxLineBytes)
            == Prepended([IntoContextLine(step.read.line, number, false, maxLineBytes, None)], step.consumed,
                         ContextSpec.ReadAfter(From(rest, step.consumed), budget - step.consumed, count - 1, number + 1,
                                               maxLineBytes))
  {
    hide ContextSpec.ReadLine, IntoContextLine;
  }

  lemma PrependedMore(lines: seq<ContextLine>, scanned: nat, line: ContextLine, used: nat,
                      rest: Result<AfterRead, ContextReadError>)
    ensures Prepended(lines, scanned, Prepended([line], used, rest)) == Prepended(lines + [line], scanned + used, rest)
  {
    if rest.Ok? {
      assert lines + ([line] + rest.value.lines) == (lines + [line]) + rest.value.lines;
    }
  }

  // ---------- the whole read ----------

  /** `read_context`: the reply is the specified one unless something outside the data went wrong. */
  method ReadContext(stream: Scanner.Reader, fileSize: nat, reference: MatchReferenceData, beforeLines: nat,
                     afterLines: nat, limits: ContextReadLimits, interruptible: bool)
    returns (r: Result<ContextReadOutcome, ContextReadError>)
    requires stream.Valid()
    modifies stream
    ensures Gives(r, ContextSpec.ReadContext(stream.data, fileSize, reference, beforeLines, afterLines, limits),
                  interruptible, stream.faulty || old(stream.interruptions) > 0)
  {
    hide ContextSpec.ReadBefore, ContextSpec.ReadForward, ContextSpec.Assemble, MatchReferenceData.Valid;
    var problem := limits.Validate(beforeLines, afterLines);
    if problem.Some? {
      return Err(problem.value);
    }
    if !reference.Valid() {
      return Err(ContextReadError.InvalidReference);
    }
    if reference.fileSizeAtMatch > fileSize || reference.MatchEndOffset() > fileSize {
      return Err(FileChanged);
    }
    var before := ReadBeforeLines(stream, reference, beforeLines, limits, interruptible);
    if before.Err? {
      return Err(before.error);
    }
    var forward := ReadMatchAndAfter(stream, reference, afterLines, limits, interruptible);
    if forward.Err? {
      return Err(forward.error);
    }
    r := Assemble(before.value, forward.value, limits.maxReturnedContentBytes);
  }

  /** The two budget loops: backwards from the match, then forwards. */
  method Assemble(before: BeforeRead, forward: ForwardRead, maximum: nat)
    returns (r: Result<ContextReadOutcome, ContextReadError>)
    ensures r == ContextSpec.Assemble(before, forward, maximum)
  {
    hide AnyTruncated, KeptBefore, KeptAfter, ContentBytes;
    var matchBytes := |forward.matchLine.content|;
    if matchBytes > maximum {
      return Err(InvalidLimits(PreviewExceedsBudget));
    }
    var keptBefore, used, beforeCut := TakeBefore(before.lines, matchBytes, maximum);
    var keptAfter, returned, afterCut := TakeAfter(forward.after.lines, used, maximum);
    var lines := keptBefore + [forward.matchLine] + keptAfter;
    var beforeTruncated := before.truncated || beforeCut;
    var afterTruncated := forward.after.truncated || afterCut;
    return Ok(ContextReadOutcome(lines[0].lineNumber, lines[|lines| - 1].lineNumber, lines, beforeTruncated,
                                 afterTruncated, returned, before.bytesScanned + forward.bytesScanned,
                                 beforeTruncated || afterTruncated || AnyTruncated(lines)));
  }

  method TakeBefore(lines: seq<ContextLine>, used: nat, maximum: nat)
    returns (kept: seq<ContextLine>, returned: nat, cut: bool)
    ensures kept == KeptBefore(lines, used, maximum) && (cut <==> |kept| < |lines|)
    ensures returned == used + ContentBytes(kept)
  {
    kept, returned, cut := [], used, false;
    var index: nat := |lines|;
    assert lines[..|lines|] == lines;
    assert KeptBefore(lines, used, maximum) == KeptBefore(lines, used, maximum) + [];
    while index > 0
      invariant index <= |lines| && |kept| == |lines| - index && !cut
      invariant KeptBefore(lines, used, maximum) == KeptBefore(lines[..index], returned, maximum) + kept
      invariant returned == used + ContentBytes(kept)
    {
      var line := lines[index - 1];
      assert lines[..index][..index - 1] == lines[..index - 1];
      if returned + |line.content| > maximum {
        cut := true;
        return;
      }
      ContentAppend([line], kept);
      Regroup(KeptBefore(lines[..index - 1], returned + |line.content|, maximum), [line], kept);
      returned, kept, index := returned + |line.content|, [line] + kept, index - 1;
    }
  }

  method TakeAfter(lines: seq<ContextLine>, used: nat, maximum: nat)
    returns (kept: seq<ContextLine>, returned: nat, cut: bool)
    ensures kept == KeptAfter(lines, used, maximum) && (cut <==> |kept| < |lines|)
    ensures returned == used + ContentBytes(kept)
  {
    kept, returned, cut := [], used, false;
    assert lines[0..] == lines;
    for index := 0 to |lines|
      invariant |kept| == index && !cut
      invariant KeptAfter(lines, used, maximum) == kept + KeptAfter(lines[index..], returned, maximum)
      invariant returned == used + ContentBytes(kept)
    {
      var line := lines[index];
      assert lines[index..][1..] == lines[index + 1..];
      if returned + |line.content| > maximum {
        cut := true;
        return;
      }
      ContentAppend(kept, [line]);
      Regroup(kept, [line], KeptAfter(lines[index + 1..], returned + |line.content|, maximum));
      returned, kept := returned + |line.content|, kept + [line];
    }
  }
}
