/**
 What a cursor and a match reference remember, when such state is acceptable, and when one page may follow
 another.
 */
module QueryState {
  import opened Wrappers
  import opened Bytes
  import opened Collections
  import opened Watermark
  import ScanSpec

  const MAX_SOURCE_ID_CHARS: nat := 128
  const MAX_FILE_ID_CHARS: nat := 256
  const MAX_RELATIVE_PATH_BYTES: nat := 4096
  const MAX_CURSOR_CANDIDATES: nat := 10_000
  const MAX_CURSOR_SOURCE_IDS: nat := 10
  const MAX_CURSOR_PAGES: nat := 100
  const MAX_CURSOR_RESULTS_RETURNED: nat := MAX_CURSOR_PAGES * ScanSpec.MAX_SCAN_RESULTS

  datatype QueryStateError =
    | InvalidCapacity | InvalidTtl | ExpirationOverflow | InvalidData | CounterOverflow | CumulativeLimit
    | QueryMismatch | Busy | CapacityBusy | LeaseLost | InvalidContinuation | UnknownOrExpired

  // ---------- names and paths ----------

  type Name = seq<Byte>

  /** A relative path as its components. */
  type Path = seq<Name>

  predicate NormalName(name: Name) {
    name != [] && 47 !in name && 0 !in name && name != [46] && name != [46, 46]
  }

  function EncodedLength(path: Path): nat {
    if path == [] then 0 else |path[0]| + (if |path| == 1 then 0 else 1 + EncodedLength(path[1..]))
  }

  predicate ValidRelativePath(path: Path) {
    && EncodedLength(path) <= MAX_RELATIVE_PATH_BYTES
    && path != []
    && forall i :: 0 <= i < |path| ==> NormalName(path[i])
  }

  datatype FileIdentity = FileIdentity(device: nat, inode: nat)

  datatype SourceFileSnapshot = SourceFileSnapshot(
    sourceId: string,
    fileId: string,
    relativePath: Path,
    identity: FileIdentity,
    sizeAtSnapshot: nat)

  // ---------- the query a cursor is bound to ----------

  /** A keyword that can be searched for. */
  predicate LiteralKeyword(keyword: seq<Byte>) {
    && 0 < ScanSpec.CharCount(keyword) <= ScanSpec.MAX_SCAN_KEYWORD_CHARS
    && LF !in keyword && CR !in keyword
  }

  /** A keyword that can be kept in a cursor or a match reference. */
  predicate ValidKeyword(keyword: seq<Byte>) {
    LiteralKeyword(keyword) && 0 !in keyword
  }

  datatype QueryBinding = QueryBinding(
    sourceIds: seq<string>,
    keyword: seq<Byte>,
    caseSensitive: bool,
    startTime: Option<int>,
    endTime: Option<int>,
    maxResults: nat)
  {
    /** What scanning needs of a query; both engines check it. */
    predicate Askable() {
      LiteralKeyword(keyword) && 0 < maxResults <= ScanSpec.MAX_SCAN_RESULTS
    }

    predicate Valid() {
      && 0 < |sourceIds| <= MAX_CURSOR_SOURCE_IDS
      && (forall i :: 0 <= i < |sourceIds| ==> 0 < |sourceIds[i]| <= MAX_SOURCE_ID_CHARS && '\0' !in sourceIds[i])
      && (forall i, j :: 0 <= i < j < |sourceIds| ==> sourceIds[i] != sourceIds[j])
      && ValidKeyword(keyword)
      && 0 < maxResults <= ScanSpec.MAX_SCAN_RESULTS
      && (startTime.Some? && endTime.Some? ==> startTime.value <= endTime.value)
    }
  }

  lemma ValidIsAskable(binding: QueryBinding)
    requires binding.Valid()
    ensures binding.Askable()
  {
  }

  datatype CursorCandidate = CursorCandidate(sourceIndex: nat, fileIndex: nat, snapshot: SourceFileSnapshot)

  // ---------- cumulative usage ----------

  datatype QuerySummary = QuerySummary(
    filesConsidered: nat,
    filesScanned: nat,
    bytesScanned: nat,
    linesScanned: nat,
    rawMatches: nat,
    filteredOutMatches: nat,
    eligibleMatches: nat,
    unknownTimestampMatches: nat,
    malformedTimestampMatches: nat,
    returnedResults: nat,
    returnedContentBytes: nat)

  datatype CumulativeQueryUsage = CumulativeQueryUsage(
    pagesReturned: nat,
    filesScanned: nat,
    bytesScanned: nat,
    linesScanned: nat,
    rawMatches: nat,
    eligibleMatches: nat,
    resultsReturned: nat,
    returnedContentBytes: nat)
  {
    /** `validate`: the absolute bounds of one cursor chain. */
    predicate Valid() {
      && pagesReturned <= MAX_CURSOR_PAGES
      && bytesScanned <= ScanSpec.MAX_SCAN_BYTES
      && resultsReturned <= MAX_CURSOR_RESULTS_RETURNED
      && returnedContentBytes <= ScanSpec.MAX_SCAN_BYTES
    }

    predicate FitsU64() {
      && pagesReturned < U64_LIMIT && filesScanned < U64_LIMIT && bytesScanned < U64_LIMIT
      && linesScanned < U64_LIMIT && rawMatches < U64_LIMIT && eligibleMatches < U64_LIMIT
      && resultsReturned < U64_LIMIT && returnedContentBytes < U64_LIMIT
    }

    predicate AtMost(other: CumulativeQueryUsage) {
      && filesScanned <= other.filesScanned
      && bytesScanned <= other.bytesScanned
      && linesScanned <= other.linesScanned
      && rawMatches <= other.rawMatches
      && eligibleMatches <= other.eligibleMatches
      && resultsReturned <= other.resultsReturned
      && returnedContentBytes <= other.returnedContentBytes
    }

    function Plus(page: QuerySummary): CumulativeQueryUsage {
      CumulativeQueryUsage(
        pagesReturned + 1,
        filesScanned + page.filesScanned,
        bytesScanned + page.bytesScanned,
        linesScanned + page.linesScanned,
        rawMatches + page.rawMatches,
        eligibleMatches + page.eligibleMatches,
        resultsReturned + page.returnedResults,
        returnedContentBytes + page.returnedContentBytes)
    }

    /** `add_page`: the sums are kept even when they are beyond the cumulative limit. */
    function AddPage(page: QuerySummary): (CumulativeQueryUsage, Option<QueryStateError>) {
      if !Plus(page).FitsU64() then (this, Some(CounterOverflow))
      else if !Plus(page).Valid() then (Plus(page), Some(CumulativeLimit))
      else (Plus(page), None)
    }
  }

  const NO_USAGE: CumulativeQueryUsage := CumulativeQueryUsage(0, 0, 0, 0, 0, 0, 0, 0)

  // ---------- cursors ----------

  datatype SearchCursorData = SearchCursorData(
    query: QueryBinding,
    candidates: seq<CursorCandidate>,
    after: ResultWatermark,
    usage: CumulativeQueryUsage)
  {
    predicate CandidatesValid() {
      && 0 < |candidates| <= MAX_CURSOR_CANDIDATES
      && (forall i :: 0 <= i < |candidates| ==>
            && candidates[i].sourceIndex < |query.sourceIds|
            && candidates[i].snapshot.sourceId == query.sourceIds[candidates[i].sourceIndex])
      && (forall i, j :: 0 <= i < j < |candidates| ==>
            !( && candidates[i].sourceIndex == candidates[j].sourceIndex
               && candidates[i].fileIndex == candidates[j].fileIndex
               && candidates[i].snapshot.fileId == candidates[j].snapshot.fileId))
      && exists i :: 0 <= i < |candidates|
            && candidates[i].sourceIndex == after.sourceIndex && candidates[i].fileIndex == after.fileIndex
    }

    predicate Valid() {
      && query.Valid()
      && after.lineNumber > 0
      && usage.Valid()
      && usage.pagesReturned > 0 && usage.resultsReturned > 0
      && CandidatesValid()
    }

    /** What storing an invalid state is refused with. */
    function Refusal(): QueryStateError {
      if query.Valid() && after.lineNumber > 0 && !usage.Valid() then CumulativeLimit else InvalidData
    }

    /** `validate_continuation`: `next` is this cursor one page later. */
    predicate ContinuedBy(next: SearchCursorData) {
      && next.Valid()
      && next.query == query
      && next.candidates == candidates
      && Precedes(after, next.after)
      && next.usage.pagesReturned == usage.pagesReturned + 1
      && usage.AtMost(next.usage)
    }
  }

  // ---------- match references ----------

  datatype MatchReferenceData = MatchReferenceData(
    sourceId: string,
    fileId: string,
    relativePath: Path,
    fileIdentity: FileIdentity,
    fileSizeAtMatch: nat,
    lineNumber: nat,
    lineStartOffset: nat,
    matchByteOffset: nat,
    keyword: seq<Byte>,
    caseSensitive: bool)
  {
    function MatchEndOffset(): nat {
      matchByteOffset + |keyword|
    }

    /** What is checked before the end of the match is computed. */
    predicate Formed() {
      && 0 < |sourceId| <= MAX_SOURCE_ID_CHARS
      && 0 < |fileId| <= MAX_FILE_ID_CHARS
      && ValidRelativePath(relativePath)
      && ValidKeyword(keyword)
      && lineNumber > 0 && lineStartOffset <= matchByteOffset
    }

    predicate Valid() {
      Formed() && MatchEndOffset() < U64_LIMIT && MatchEndOffset() <= fileSizeAtMatch
    }

    /** What storing an invalid reference is refused with. */
    function Refusal(): QueryStateError {
      if Formed() && MatchEndOffset() >= U64_LIMIT then CounterOverflow else InvalidData
    }
  }

  // ---------- chains ----------

  ghost predicate Chain(states: seq<SearchCursorData>) {
    && (forall i :: 0 <= i < |states| ==> states[i].Valid())
    && forall i :: 0 <= i < |states| - 1 ==> states[i].ContinuedBy(states[i + 1])
  }

  lemma UsageRises(a: CumulativeQueryUsage, b: CumulativeQueryUsage, c: CumulativeQueryUsage)
    requires a.AtMost(b) && b.AtMost(c)
    ensures a.AtMost(c)
  {
  }

  /** Along a chain the query and the candidates stay, the watermark rises, and each state is one page further. */
  lemma {:induction false} ChainAdvances(states: seq<SearchCursorData>, i: nat, j: nat)
    requires Chain(states) && i < j < |states|
    ensures states[j].query == states[i].query && states[j].candidates == states[i].candidates
    ensures Precedes(states[i].after, states[j].after) && states[i].usage.AtMost(states[j].usage)
    ensures states[j].usage.pagesReturned == states[i].usage.pagesReturned + (j - i)
  {
    hide SearchCursorData.Valid, CumulativeQueryUsage.AtMost, Precedes;
    assert states[j - 1].ContinuedBy(states[j - 1 + 1]);
    if i == j - 1 {
    } else {
      ChainAdvances(states, i, j - 1);
      OrderIsTransitive(states[i].after, states[j - 1].after, states[j].after);
      UsageRises(states[i].usage, states[j - 1].usage, states[j].usage);
    }
  }

  /** At most 100 cursor states are ever stored along one chain. */
  lemma ChainIsBounded(states: seq<SearchCursorData>)
    requires Chain(states)
    ensures |states| <= 100
  {
    if |states| > 1 {
      ChainAdvances(states, 0, |states| - 1);
    }
  }

  // ---------- what is acceptable ----------

  /** A keyword has one to 256 characters and no line break or NUL. */
  predicate SearchableKeyword(keyword: seq<Byte>) {
    1 <= ScanSpec.CharCount(keyword) <= 256
    && forall b :: b in keyword ==> b as char != '\n' && b as char != '\r' && b as char != '\0'
  }

  /**
   A query is accepted exactly when it names one to ten sources, none twice, each with one to 128 characters and no
   NUL, has a searchable keyword, wants one to 200 results, and its range does not end before it starts.
   */
  lemma BindingIsAccepted(binding: QueryBinding)
    ensures binding.Valid()
       <==> && 1 <= |binding.sourceIds| <= 10 && NoDuplicates(binding.sourceIds)
            && (forall id :: id in binding.sourceIds ==> 1 <= |id| <= 128 && '\0' !in id)
            && SearchableKeyword(binding.keyword) && 1 <= binding.maxResults <= 200
            && !(binding.startTime.Some? && binding.endTime.Some? && binding.endTime.value < binding.startTime.value)
  {
  }

  /** The path as one byte sequence. */
  function Joined(path: Path): seq<Byte> {
    if path == [] then [] else if |path| == 1 then path[0] else path[0] + ['/' as Byte] + Joined(path[1..])
  }

  predicate Spells(name: Name, text: string) {
    |name| == |text| && forall i :: 0 <= i < |name| ==> name[i] as char == text[i]
  }

  /** A name that leads downwards. */
  ghost predicate Downwards(name: Name) {
    && name != [] && !Spells(name, ".") && !Spells(name, "..")
    && forall b :: b in name ==> b as char != '/' && b as char != '\0'
  }

  /** At most 4,096 bytes long, and leading only downwards. */
  ghost predicate Normalized(path: Path) {
    path != [] && |Joined(path)| <= 4096 && forall name :: name in path ==> Downwards(name)
  }

  lemma {:induction false} LengthIsJoined(path: Path)
    ensures EncodedLength(path) == |Joined(path)|
  {
    if |path| > 1 {
      LengthIsJoined(path[1..]);
    }
  }

  lemma NameIsAccepted(name: Name)
    ensures NormalName(name) <==> Downwards(name)
  {
  }

  lemma PathIsAccepted(path: Path)
    ensures ValidRelativePath(path) <==> Normalized(path)
  {
    hide EncodedLength, Joined, NormalName, Downwards;
    LengthIsJoined(path);
    forall i | 0 <= i < |path|
      ensures NormalName(path[i]) <==> Downwards(path[i])
    {
      NameIsAccepted(path[i]);
    }
    assert forall i :: 0 <= i < |path| ==> path[i] in path;
  }

  /**
   A reference is accepted exactly when its identifiers have one to 128 and one to 256 characters, its path is
   normalized, its keyword is searchable, and its match lies behind the start of a numbered line and inside the file.
   */
  lemma ReferenceIsAccepted(reference: MatchReferenceData)
    ensures reference.Valid()
       <==> && 1 <= |reference.sourceId| <= 128 && 1 <= |reference.fileId| <= 256
            && Normalized(reference.relativePath) && SearchableKeyword(reference.keyword)
            && reference.lineNumber >= 1 && reference.lineStartOffset <= reference.matchByteOffset
            && reference.matchByteOffset + |reference.keyword| <= Min(reference.fileSizeAtMatch, U64_LIMIT - 1)
  {
    hide ValidRelativePath, Normalized;
    PathIsAccepted(reference.relativePath);
  }

  /** A usage is accepted exactly when it is within 100 pages, 20,000 results, and 64 GiB of bytes and of content. */
  lemma UsageIsAccepted(usage: CumulativeQueryUsage)
    ensures usage.Valid()
       <==> && usage.pagesReturned <= 100 && usage.resultsReturned <= 20_000
            && Max(usage.bytesScanned, usage.returnedContentBytes) <= 64 * 1024 * 1024 * 1024
  {
  }

  /**
   A cursor is accepted exactly when its query and usage are, it has returned a page and a result, it has one to
   10,000 candidates of the query's sources, none twice, and its watermark stands in a numbered line of one of them.
   */
  lemma CursorIsAccepted(cursor: SearchCursorData)
    ensures cursor.Valid()
       <==> && cursor.query.Valid() && cursor.usage.Valid()
            && cursor.usage.pagesReturned >= 1 && cursor.usage.resultsReturned >= 1
            && 1 <= |cursor.candidates| <= 10_000
            && AllOfQuery(cursor.candidates, cursor.query) && AllApart(cursor.candidates)
            && cursor.after.lineNumber >= 1 && StandsInOne(cursor.after, cursor.candidates)
  {
    hide QueryBinding.Valid, CumulativeQueryUsage.Valid, AllOfQuery, AllApart, StandsInOne;
    EachOfQuery(cursor.candidates, cursor.query);
    EachApart(cursor.candidates);
    OneHolds(cursor.after, cursor.candidates);
  }

  /** The candidates are numbered for sources of the query, and are files of them. */
  ghost predicate AllOfQuery(candidates: seq<CursorCandidate>, query: QueryBinding) {
    forall c :: c in candidates ==>
      c.sourceIndex < |query.sourceIds| && query.sourceIds[c.sourceIndex] == c.snapshot.sourceId
  }

  /** What tells candidates apart. */
  function Place(c: CursorCandidate): (nat, nat, string) {
    (c.sourceIndex, c.fileIndex, c.snapshot.fileId)
  }

  ghost predicate AllApart(candidates: seq<CursorCandidate>) {
    forall i, j :: 0 <= i < j < |candidates| ==> Place(candidates[i]) != Place(candidates[j])
  }

  ghost predicate StandsInOne(key: ResultWatermark, candidates: seq<CursorCandidate>) {
    exists c :: c in candidates && c.sourceIndex == key.sourceIndex && c.fileIndex == key.fileIndex
  }

  lemma EachOfQuery(candidates: seq<CursorCandidate>, query: QueryBinding)
    ensures AllOfQuery(candidates, query)
       <==> forall i :: 0 <= i < |candidates| ==>
              && candidates[i].sourceIndex < |query.sourceIds|
              && candidates[i].snapshot.sourceId == query.sourceIds[candidates[i].sourceIndex]
  {
  }

  lemma EachApart(candidates: seq<CursorCandidate>)
    ensures AllApart(candidates)
       <==> forall i, j :: 0 <= i < j < |candidates| ==>
              !( && candidates[i].sourceIndex == candidates[j].sourceIndex
                 && candidates[i].fileIndex == candidates[j].fileIndex
                 && candidates[i].snapshot.fileId == candidates[j].snapshot.fileId)
  {
  }

  lemma OneHolds(key: ResultWatermark, candidates: seq<CursorCandidate>)
    ensures StandsInOne(key, candidates)
       <==> exists i :: 0 <= i < |candidates|
              && candidates[i].sourceIndex == key.sourceIndex && candidates[i].fileIndex == key.fileIndex
  {
    if StandsInOne(key, candidates) {
      var c :| c in candidates && c.sourceIndex == key.sourceIndex && c.fileIndex == key.fileIndex;
      var i :| 0 <= i < |candidates| && candidates[i] == c;
    }
  }
}
