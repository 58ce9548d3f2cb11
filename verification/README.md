# Verified model of Log Query MCP

Log Query MCP is a bounded, read-only log search service. Clients search log files for a keyword, page
through the matches with cursors, and read the lines around a match. This project models the parts that have
to agree with each other byte for byte, and proves that they do.

`dafny verify dfyconfig.toml` checks everything.

## What is modelled

A file is a sequence of bytes. A reader is an adversary that returns any non-empty short read, may be
interrupted, and may fail. Cancellation and deadlines are oracles. Time is a natural number. A Rust string is a
byte sequence that is valid UTF-8.

| layer | modules |
|---|---|
| sequences, bytes, case folding, lossy UTF-8 | `Collections`, `Bytes`, `Utf8` |
| streaming scanner: a KMP matcher with a sliding window and a bounded preview, refining a line-by-line specification | `Kmp`, `ScanSpec`, `Scanner`, `ScanStops`, `ChunkedScan`, `MatchFacts` |
| scanning a file in resumable chunks | `FileChunks`, `CandidateScan`, `ChunkLoop`, `Completeness` |
| one page: time filter, bounded heap of the earliest keys, content budget, counters | `Watermark`, `PageSpec`, `PageFacts`, `TimeFilter`, `PageCounters`, `StatefulQuery`, `PageOrigin`, `QueryEngine` |
| cursors and pagination | `QueryState`, `Pagination`, `ResultList`, `Search`, `Counters`, `SessionReach` |
| cursor store, its lease protocol under every interleaving, and sessions in it | `CursorStore`, `CursorProtocol`, `CursorLifetime`, `ConcurrentSessions` |
| match reference store, one operation at a time and over whole runs | `MatchStore`, `MatchHistory` |
| bounded context reader | `ContextSpec`, `ContextReader`, `ContextFacts`, `ContextLines`, `ContextOutcome`, `ContextTruncation`, `ReplyLines`, `ShownLines`, `ContextChecks` |
| from a search result to its context | `RoundTrip` |
| finding the files of a source | `PathOrder`, `Discovery` |

Where the Rust code works step by step (the scanner, the page builder, both stores, the context reader, the
stateless engine, discovery), the model is a class or a method with loops, proved equal to a specification
function; what the service promises is then proved about that function.

## Main results

- **Scanner.** For every chunking of the reads and every buffer size `Scanner.ScanReader` returns the line-by-line
  scan: one match per line, at the leftmost folded occurrence, with absolute offsets (`ScanReader`,
  `MatchesAreLocated`). Scanning in chunks is one unlimited scan (`ChunksAreOneScan`). What folding case, decoding and
  cutting a line mean is said by the bytes (`OccursMeans`, `LossyByTable`, `WindowIsCentred`).
- **Pagination.** The pages of a session, each begun with the cursor stored by the one before, return the sorted
  list of all matches without gap or repetition, and end it when a page is complete; a result differs from the listed
  one only as the last of a page that met its content budget, and then in its content alone (`SessionIsExact`). No page
  of a session fails for its counters (`SessionNeverOverflows`), and it is known exactly how far a session can get
  (`SessionExtends`).
- **The list.** That list holds the reports of exactly the matches that stand in the files and whose lines show no time
  out of range (`ListIsExactly`), earlier times first, unknown ones last, equal ones by place (`ListIsInOrder`).
- **Leases.** In every interleaving, with clock readings in any order, live leases and leased entries correspond
  one to one; nobody is told that a lease was lost; a search can always commit its continuation (`SearchCommits`).
  Every cursor stored or leased in such a run is the last state of a session, so pagination is exact for every lease
  holder whatever others do (`EveryRunKeepsSessions`, `LeasedPageIsExact`). A new cursor can be leased by its own query,
  and by no other, until its time to live has passed (`NewCursorIsLeasable`, `NextCursorIsLeasable`).
- **Context.** The lines before a match are exactly the nearest whole lines the window covers (`BeforeIsExact`);
  the reply is a consecutive run around one match line that shows the keyword, with exact counters (`ReplyIsExact`);
  every line of it is the line of the file that has its number (`ReplyShowsFile`), shown as its bytes say
  (`BeforeIsShown`, `MatchLineIsShown`, `BehindIsShown`). A read whose match line fits the scan budget succeeds exactly
  when the file still holds what the reference says (`ReadSucceedsExactly`).
- **Round trip.** Every result of a page can be resolved in every file that extends its snapshot, and the line
  marked as the match has the reported number, shows the keyword and, unless the line has grown, shows what the search
  reported of it (`PageResolves`).
- **Stateless twin.** A stateless query returns the first stateful page (`QueryEngine.Execute`).
- **Discovery.** On a fixed tree discovery succeeds exactly within its bounds and finds exactly the allowed regular
  files below directories with UTF-8 names (`DiscoverRegularFiles`, `DiscoveredExactly`).

## Where the code does less than it may seem to

- A file of exactly 64 GiB whose last line is unterminated loses that line's match, because the one extra byte of
  budget that would show the end of the file is clamped away. `CompleteExactly` gives the exact condition,
  `LastLineLost` a file.
- The match reference store purges only at the front of its queue and reads the clock before taking the lock.
  When readings go back, an expired reference can still be resolved (`ExpiredTokenResolves`); the purge is exact
  if and only if expiry times never fall along the queue (`FrontPurgeAlwaysExact`).
- docs/M2_CONTEXT_READER.md:31 says that the stored line start is checked to be a line boundary again. The code
  does so exactly when lines before the match are asked for (`StartRechecked`, `JoinedLineIsShown`).
- A context line before the match and the same line behind it differ in their truncation flag when the line is
  exactly one carriage return longer than the maximum (`RenderingsAgree`, `RenderingsDiffer`).
- The lines behind a match are reported as truncated although none is missing, exactly when more were asked for than
  there are, the scan budget ends with the file and the file ends in a line feed (`FlagIsSpurious`,
  `ReplyFlagIsSpurious`, `EndOfFileIsTruncated`).
- Every page scans all snapshots again, and a cursor chain may scan 64 GiB in all: a session over `S` bytes has no page
  after the `n`-th when `n * S` is more than that, even if matches are left (`SessionExtends`, `SessionCutShort`).
- Configuration allows a regular file below a directory whose name is not UTF-8, but discovery never finds it
  (`FilesOfRule`, `UnnamedDirectoryIsSkipped`).
- A line that fits the line limit as a whole is still cut in front when its match begins behind the room kept before a
  match (`FittingLineIsCut`, `ShortLineIsCut`); the flag says so correctly (`FlagsAreExact`).
- A query whose file limit is used up before its last source is refused even when that source has no files
  (`BuildCandidates`, `EmptySourceRefused`).

## Model

| member | source | states |
|---|---|---|
| `Bytes.FindFoldedIsLeftmost` | src/context_reader.rs:696-708 | the search returns the leftmost position at which the keyword stands up to ASCII case, and returns nothing only if it stands nowhere |
| `Bytes.OccursMeans` | src/context_reader.rs:696-716 | with regard to case the keyword stands where the same bytes stand, and without regard to case where each byte is the same or the other case of one ASCII letter |
| `Kmp.BuildFailureTable` | src/scanner.rs:609-623 | the table filled in place holds, for every pattern prefix, the length of its longest proper border |
| `Kmp.Advance` | src/scanner.rs:294-302 | after a byte the matcher state is the longest pattern prefix that is a suffix of the text so far |
| `Scanner.AdvanceMatcher` | src/scanner.rs:293-314 | the matcher reaches the pattern length exactly at the end of the leftmost occurrence of the keyword in the line |
| `Scanner.LineCapture.PushByte` | src/scanner.rs:274-314 | matcher state, sliding window and preview keep describing the line read so far, before and after its first match |
| `Scanner.LineCapture.TakeMatch` | src/scanner.rs:316-341 | the report of a finished line is the specified one: leftmost occurrence, fixed window around it, final carriage return dropped, lossy text |
| `Scanner.LineCapture.Reset` | src/scanner.rs:343-352 | a reset capture describes an empty line at the new position |
| `Scanner.FinishLine` | src/scanner.rs:511-534 | a finished line is dropped, kept, or kept as the last one, exactly by the result and content limits |
| `Scanner.PositionAfterLines` | src/scanner.rs:569-586 | the resume position is the start advanced by bytes and lines, or an overflow error exactly when it leaves 64 bits |
| `Scanner.ScanReader` | src/scanner.rs:355-509 | for every chunking of the reads and every buffer size the outcome is the line-by-line scan of the data; an interrupted scan reports a prefix of it and a resume position only at a line boundary |
| `ScanSpec.ValidateIsExact` | src/scanner.rs:137-184 | a request is accepted exactly when it keeps every bound, and an error names a bound it does not keep |
| `ScanSpec.CharCountMeans` | src/scanner.rs:137-150 | the keyword length that is checked counts characters, one for each character of the table of RFC 3629 |
| `Scanner.Reader.Read` | src/scanner.rs:381-402 | a read hands out any non-empty part of what was asked for, is interrupted, fails, or reports the end only at the end |
| `Utf8.UnitIsCharacter` | src/scanner.rs:327-330 | a decoding step is well formed exactly when the bytes begin with a character of the table in section 4 of RFC 3629, and then takes that character |
| `Utf8.IllFormedUnitIsMaximal` | src/scanner.rs:327-330 | an ill-formed step takes the maximal subpart of section 3.9 of the Unicode Standard |
| `Utf8.LossyByTable` | src/scanner.rs:327-330 | lossy decoding keeps every character of that table and puts U+FFFD in the place of every maximal subpart |
| `Utf8.LossyFixesStrings` | src/scanner.rs:326-330 | lossy decoding changes a byte sequence exactly when it is not valid UTF-8, so testing first and decoding always agree |
| `Utf8.LossyIsValid` | src/context_reader.rs:474-475 | lossy decoding always yields valid UTF-8 |
| `Utf8.LossyExpansion` | src/stateful_query.rs:24 | lossy decoding makes text at most three times as long: the expansion factor of the query layer |
| `Utf8.LossySplit` | src/scanner.rs:327-330 | lossy decoding distributes over a split behind which no continuation byte stands |
| `Utf8.KeywordSurvivesLossy` | src/scanner.rs:316-341 | a keyword in the bytes is still there after lossy decoding, at the length of what was decoded before it |
| `Utf8.BoundarySplits` | src/context_reader.rs:686-694 | char boundaries are exactly the places where a string may be cut into two strings |
| `Utf8.KeywordOnBoundaries` | src/context_reader.rs:673-694 | a keyword copy inside a string begins and ends at char boundaries |
| `ChunkedScan.MatchesSplit` | src/scanner.rs:355-509 | the matches of whole lines and of what follows them are found independently, with absolute positions |
| `ChunkedScan.CountsSplit` | src/scanner.rs:430-470 | line counts add up across a line boundary |
| `ChunkedScan.ScanMeaning` | src/scanner.rs:355-509 | a bounded scan reports exactly the matches of the terminated lines it consumed, or all matches when it saw the end, and resumes only at a line boundary |
| `ChunkedScan.KeepFits` | src/scanner.rs:511-534 | with room for the largest decoded previews no match is dropped for its content and only the result limit stops the scan |
| `ScanStops.LimitsStopScan` | src/scanner.rs:511-534 | a scan returns the first matches of the data, no more than its result and content limits allow, with their exact content total; it stops for results exactly when the result limit is reached, and for content exactly when that limit is used up or the next match it saw does not fit |
| `FileChunks.ChunkContentFits` | src/stateful_query.rs:830-835 | the chunk result limit is positive and keeps the decoded content of a chunk within 16 MiB |
| `FileChunks.ChunkLimitIsLargest` | src/stateful_query.rs:830-835 | the chunk result limit is the largest up to 200 for which three times the line limit each fits 16 MiB |
| `FileChunks.ChunkExtends` | src/stateful_query.rs:331-419 | matches, counts and positions of a file prefix and of a chunk behind it are those of both together |
| `FileChunks.ChunkCarriesOn` | src/stateful_query.rs:331-380 | the matches of a chunk carry on the line numbers of the file and are located in it |
| `CandidateScan.ChunkTurn` | src/stateful_query.rs:396-419 | every chunk finishes the file, uses up the page byte budget exactly, or leaves a later line boundary to resume at; it never stops for content and never leaves an unsafe position |
| `ChunkLoop.ChunksAreTheFile` | src/stateful_query.rs:331-419 | however many chunks it takes, together they report what scanning the file means |
| `ChunkLoop.ChunksAreOneScan` | src/stateful_query.rs:331-419 | chunked scanning equals one unlimited scan: same matches, lines and bytes |
| `MatchFacts.FileMatchesLocated` | src/scanner.rs:274-341 | every report is right: keyword at its offset, line start and line number exact, and no earlier occurrence in the line |
| `MatchFacts.FileMatchesRendered` | src/scanner.rs:316-341 | every report of a file is the rendering of the line that begins at the reported start, around the reported offset |
| `MatchFacts.FlagsAreExact` | src/scanner.rs:316-341 | a report is marked truncated exactly when its window is not the whole line, and lossy exactly when decoding changed the shown bytes |
| `MatchFacts.FittingLineIsCut` | src/scanner.rs:285-313 | a line within the line limit is still cut in front exactly when its match begins behind the room kept before a match |
| `MatchFacts.ShortLineIsCut` | src/scanner.rs:285-313 | such a line: four bytes, five allowed, the match at the end |
| `MatchFacts.NothingMissed` | src/scanner.rs:355-509 | every occurrence of the keyword lies in a reported line, at or behind the reported offset |
| `MatchFacts.MatchesAreLocated` | src/scanner.rs:274-341 | the reports of a file are exactly those that are located in it and render their line: none is missing and none is there twice for one line |
| `MatchFacts.LocatedInLonger` | src/stateful_query.rs:351-356 | what is located in a snapshot is located in every file that extends it |
| `Completeness.CompleteExactly` | src/stateful_query.rs:341-349 | a file within the budget is reported completely if and only if it does not lose its last line: exactly 64 GiB long, unterminated, keyword in the last line, too few matches before it |
| `Completeness.LastLineLost` | src/stateful_query.rs:341-349 | such a file exists: one 64 GiB line without a line feed, whose only match is not reported |
| `Completeness.ListIsEveryMatch` | src/stateful_query.rs:315-429 | otherwise the list that pages cut into parts holds every match in range of every candidate and nothing else |
| `Watermark.OrderIsTotal` | src/query_state.rs:113-136 | the result order is total, and only equal keys compare equal |
| `Watermark.OrderMeans` | src/query_state.rs:113-136 | an earlier known time comes first, known times come before unknown ones, and at equal times the smaller source index, then file index, then line number, then offset decides |
| `Watermark.OrderIsTransitive` | src/query_state.rs:113-136 | the result order is transitive |
| `Watermark.SortedIsSorted` | src/stateful_query.rs:664-665 | sorting by key yields a strictly rising sequence when keys differ |
| `Watermark.HeapOrderIrrelevant` | src/stateful_query.rs:664-665 | whatever order the heap keeps its elements in, sorting them gives one sequence |
| `Watermark.KeepEarliest` | src/stateful_query.rs:650-653 | pushing and popping above the limit keeps the heap at the earliest elements seen |
| `StatefulQuery.SeekToScanPosition` | src/stateful_query.rs:753-772 | a seek is accepted exactly at a line boundary inside the snapshot |
| `StatefulQuery.TurnFollows` | src/stateful_query.rs:387-419 | after an uninterrupted chunk the continuation is never refused: the turn finishes the file, ends the page at its byte budget, or goes on at a later line boundary with every match so far judged |
| `StatefulQuery.ReadLinePrefix` | src/stateful_query.rs:785-820 | for every short read the prefix is the first bytes of the line, cut at its line feed and at the snapshot end |
| `StatefulQuery.ProcessMatch` | src/stateful_query.rs:575-655 | one match changes exactly the counters of its time decision and is offered to the heap exactly when it is in range and behind the watermark |
| `StatefulQuery.ProcessMatches` | src/stateful_query.rs:551-655 | after a chunk the counters and the heap describe all matches judged so far |
| `StatefulQuery.ReadChunk` | src/stateful_query.rs:341-380 | a chunk is the scan of the next snapshot bytes, also when the file has grown; its errors are only those of an unsteady world |
| `StatefulQuery.ScanTurn` | src/stateful_query.rs:331-419 | one turn of the chunk loop finishes the candidate, ends the page at its byte budget, or goes on at a later position |
| `StatefulQuery.ScanCandidateFile` | src/stateful_query.rs:315-420 | a candidate is scanned whole or up to the page byte budget, with exact counters |
| `StatefulQuery.TruncateContent` | src/stateful_query.rs:837-846 | content is cut at the last char boundary within the maximum |
| `StatefulQuery.FinishPage` | src/stateful_query.rs:657-709 | the page shows the earliest matches in order within the content budget, with its stop reason and counters |
| `StatefulQuery.ScanPage` | src/stateful_query.rs:289-429 | for every reader behaviour, file growth and heap order the page is the specified function of the frozen snapshots; the remaining errors are listed |
| `StatefulQuery.ReferenceValid` | src/query_state.rs:306-347 | a reference built from a located match passes validation |
| `PageFacts.MatchesConserved` | src/stateful_query.rs:551-655 | raw matches are filtered out, skipped before the watermark, or eligible |
| `PageFacts.PageKeysDistinct` | src/stateful_query.rs:606-617 | all matches of a page have distinct keys |
| `PageOrigin.PageComesFrom` | src/stateful_query.rs:606-648 | every result reports, and refers to, a match located in the snapshot of one of the candidates, with the time the rule of its source finds in that line |
| `PageOrigin.JudgedIsReport` | src/stateful_query.rs:606-648 | every field of a key, a result and a reference is the one of the match, the candidate and the query that it is named after |
| `Counters.CountersOfPage` | src/stateful_query.rs:711-728 | lines and matches never exceed the bytes scanned, and no page counter can overflow |
| `Pagination.ScanByteLimitExactly` | src/stateful_query.rs:331-346 | a page stops for its byte budget exactly when the snapshots are larger, and scans exactly the smaller of both |
| `Pagination.FilesScannedExactly` | src/stateful_query.rs:312-346 | a page opens the candidates up to the first before which its byte budget is exceeded |
| `Pagination.LaterPagesWithinBudget` | src/stateful_query.rs:331-346 | on unchanged snapshots no later page hits the byte budget when the first did not |
| `Pagination.PageContinues` | src/stateful_query.rs:289-429 | a page begun behind the returned part shows the next results and none other, unchanged except for a last one cut at the last char boundary within what the others leave of the content budget; its byte counter is the total of what it returns, it counts what is left as eligible and what was returned as skipped; each stop reason tells the limit that was met, and complete means the end of the list |
| `Pagination.TakesPrefix` | src/stateful_query.rs:671-690 | the content budget takes a prefix, and is exceeded exactly when the last result is cut to what is left of it or it is used up exactly and more results wait; no other result is changed |
| `Pagination.PaginationExact` | src/stateful_query.rs:181-287 | the pages of a chain show the sorted list of all matches from its beginning, each page its part, each match once and unchanged except for the last of a page that met its content budget; a complete page ends the list |
| `Pagination.KeysRise` | src/stateful_query.rs:181-287 | along a chain results come in the order of their times, and at equal times of source, file, line and offset, each strictly behind the one before |
| `Pagination.ListIsInOrder` | src/stateful_query.rs:664-665 | the list goes by time, earlier first and unknown last, and at equal times by source, file, line and offset |
| `Pagination.ListIsAllInRange` | src/stateful_query.rs:594-604 | the list holds exactly the judged matches that were not decided to be out of range |
| `TimeFilter.ObservesItsLine` | src/stateful_query.rs:570-589 | the rule of a source is shown the first bytes of the line of the match, and no rule finds no time |
| `TimeFilter.JudgedByItsTime` | src/time_filter.rs:90-103 | a match is out of range exactly when its line shows a known time before the start or not before the end, unknown when it shows none, malformed when it shows a malformed one |
| `ResultList.ListedIsInTime` | src/time_filter.rs:90-93 | every listed match with a known time is not before the start and is before the end, where these are set |
| `ResultList.ReturnedIsInTime` | src/time_filter.rs:90-93 | the same of every result of every page |
| `ResultList.ListIsExactly` | src/stateful_query.rs:551-655 | the list is made of the reports of all matches located in the snapshots whose line shows no time out of range, and of nothing else |
| `PageCounters.CountersAreExact` | src/stateful_query.rs:551-655 | a page counts the lines and matches it sees, those with a known time out of range, without a time and with a malformed one; all others are eligible or lie before the watermark |
| `Search.BuildCandidates` | src/stateful_query.rs:507-536 | candidates are all files of all sources in order, or the error of the first source that cannot be listed, finds the file limit used up, or exceeds it |
| `Search.CandidateAt` | src/stateful_query.rs:507-536 | the candidates of a source stand behind those of the sources before it, numbered in the order of its listing |
| `Search.EmptySourceRefused` | src/stateful_query.rs:507-536 | one file of two sources, the second empty, is refused at a limit of one file |
| `Search.CandidatesWellNumbered` | src/stateful_query.rs:507-536 | no two candidates share source and file index, and each belongs to the source it is numbered for |
| `Search.BuiltAreStorable` | src/stateful_query.rs:507-536 | candidates built for a query can be stored in its cursor and are numbered apart |
| `Search.ContinuablePageHasResults` | src/stateful_query.rs:252-258 | a page that stopped for results or content is never empty, so there is a last key to continue behind |
| `Search.ContinuationIsValid` | src/stateful_query.rs:226-267 | every continuation passes validation on a first and on a later page, and there is one exactly when the page can be continued and the cumulative limits allow it |
| `Search.ContinuationFollows` | src/query_state.rs:256-288 | the continuation of a later page continues the cursor that page was begun with |
| `Search.SearchCommits` | src/stateful_query.rs:269-274 | in every interleaved run a lease holder can commit its continuation; only an expiry beyond the clock range refuses it |
| `Search.EveryRunKeepsValid` | src/query_state.rs:401-413 | nothing but valid cursors is ever stored |
| `Search.SessionIsExact` | src/stateful_query.rs:181-287 | a whole session of searches returns the sorted list of all matches from its beginning without gap or repetition, each result as listed except for the last of a page that met its content budget; at most 100 cursors and 101 pages |
| `Counters.SessionNeverOverflows` | src/query_state.rs:158-197 | along a session the cumulative counters never overflow |
| `Counters.UsageIsSum` | src/query_state.rs:158-197 | the usage a cursor carries is the sum of the counters of the pages returned so far |
| `SessionReach.ContinuableExactly` | src/stateful_query.rs:252-258 | after a chain of pages there is something to continue exactly when the snapshots are within the byte budget of a page and the last page did not return the rest of the list as it is |
| `SessionReach.SessionExtends` | src/query_state.rs:158-197 | after `n` pages there is another exactly when the snapshots are within the byte budget of a page, the last page did not return the rest of the list as it is, `n` is at most 100, and `n` scans of all snapshots are at most 64 GiB; results and content never end a session |
| `SessionReach.SessionCutShort` | src/query_state.rs:158-197 | a session that ends before its list: one snapshot of 40 GiB with three matches, one result a page, two pages and no third |
| `QueryState.ChainAdvances` | src/query_state.rs:256-288 | along a cursor chain query and candidates stay, the watermark rises strictly, usage never falls and pages count up |
| `QueryState.ChainIsBounded` | src/query_state.rs:181-191 | at most 100 cursor states are stored along one chain |
| `QueryState.BindingIsAccepted` | src/query_state.rs:41-90 | a query is accepted exactly when it names one to ten sources, none twice, each with one to 128 characters, has a keyword of one to 256 characters without line break or NUL, wants one to 200 results, and its range does not end before it starts |
| `QueryState.ReferenceIsAccepted` | src/query_state.rs:306-347 | a reference is accepted exactly when its identifiers and path are bounded and normalized, its keyword is searchable, and its match lies behind the start of a numbered line and inside the file |
| `QueryState.CursorIsAccepted` | src/query_state.rs:207-254 | a cursor is accepted exactly when query and usage are, it has returned a page and a result, it has one to 10,000 candidates of the sources of the query, none twice, and its watermark stands in one of them |
| `QueryEngine.ProcessMatches` | src/query_engine.rs:347-447 | the stateless counters and heap describe all matches judged so far |
| `QueryEngine.StrippedSorted` | src/query_engine.rs:671-694 | leaving the references out commutes with sorting |
| `QueryEngine.FinishPage` | src/query_engine.rs:449-503 | the stateless page shows what the stateful one shows of the same matches |
| `QueryEngine.Execute` | src/query_engine.rs:163-298 | a stateless query returns the first stateful page for the same request: results, order, stop reason and counters, for every keyword the stateless engine accepts |
| `QueryEngine.StatelessPage` | src/query_engine.rs:449-503 | a stateless page is the beginning of the list, and is marked truncated exactly when the snapshots exceed the byte budget or it is not the whole list as it is |
| `CursorStore.SearchCursorStore.PurgeExpired` | src/query_state.rs:571-582 | purging drops exactly the expired unleased entries from map and queue |
| `CursorStore.SearchCursorStore.EvictOldestUnleased` | src/query_state.rs:584-600 | eviction removes the first unleased token and leaves a rotation of the rest |
| `CursorStore.EvictKeepsForm` | src/query_state.rs:584-600 | eviction fails exactly when everything is leased, and then changes nothing |
| `CursorStore.EvictionMeans` | src/query_state.rs:584-600 | an eviction takes the first free entry of the queue and puts the leased tokens before it behind the others |
| `CursorStore.SearchCursorStore.Insert` | src/query_state.rs:401-413 | the class carries out the insert section; the size stays within capacity |
| `CursorStore.SearchCursorStore.Begin` | src/query_state.rs:415-447 | beginning leases a free, unexpired entry of the same query, and tells the four refusals apart |
| `CursorStore.SearchCursorStore.FinishLease` | src/query_state.rs:461-488 | finishing replaces the leased entry by the next one, or refuses without changing it |
| `CursorStore.SearchCursorStore.ReleaseLease` | src/query_state.rs:490-506 | releasing frees the entry, or removes it when it has expired |
| `CursorStore.SearchCursorLease.Commit` | src/query_state.rs:530-539 | a lease counts as completed exactly when its commit succeeded |
| `CursorStore.SearchCursorLease.Drop` | src/query_state.rs:542-548 | dropping releases exactly the leases that were not completed |
| `CursorProtocol.StepKeepsInv` | src/query_state.rs:401-506 | every critical section keeps leases and leased entries in one-to-one correspondence with equal data |
| `CursorProtocol.EveryRunKeepsInv` | src/query_state.rs:401-506 | the correspondence holds in every state of every interleaving, with clock readings in any order |
| `CursorProtocol.OneLeasePerToken` | src/query_state.rs:436-447 | at most one live lease per token |
| `CursorProtocol.LeaseIsNeverLost` | src/query_state.rs:461-488 | a holder is never told that its lease was lost; a commit fails exactly for an invalid continuation or the clock, and then changes nothing |
| `CursorProtocol.NoRunLosesLease` | src/query_state.rs:461-488 | the same in every run |
| `CursorProtocol.StepLeavesLease` | src/query_state.rs:571-605 | no purge, eviction or other section of someone else touches a leased entry |
| `CursorProtocol.LeasedTokenIsBusy` | src/query_state.rs:415-447 | a second caller cannot lease a leased token |
| `CursorProtocol.CommitReplaces` | src/query_state.rs:461-488 | a successful commit consumes the token, stores the next state under the new one, free and with its whole time to live, and leaves all other leased or unexpired entries unchanged |
| `CursorProtocol.DropFrees` | src/query_state.rs:490-506 | dropping frees the entry with unchanged data unless it has expired, and touches no other entry or lease |
| `CursorProtocol.ReleasedIsLeasable` | src/query_state.rs:490-506 | after a failed attempt the same cursor can be leased again with the same data until it expires |
| `CursorLifetime.InsertAnswers` | src/query_state.rs:401-413 | an insert is refused exactly for invalid data, with the error of the first check that fails, for an expiry beyond the clock range, or when leased entries alone fill the store |
| `CursorLifetime.InsertStores` | src/query_state.rs:401-413 | an insert stores the state free and with its whole time to live, drops expired entries, and keeps of the others as many as there is room for, all leased ones and the youngest free ones, unchanged |
| `CursorLifetime.InsertIsYoungest` | src/query_state.rs:584-615 | the new entry is the youngest in the queue and the free ones keep their age |
| `CursorLifetime.InsertWithRoom` | src/query_state.rs:401-413 | with room for one more no leased or unexpired entry goes |
| `CursorLifetime.BeginAnswers` | src/query_state.rs:415-447 | the answer to a caller by the entry of the token alone: invalid query, unknown or expired, another query, leased, or the stored state |
| `CursorLifetime.BeginLeases` | src/query_state.rs:415-447 | a successful begin notes the lease in the entry and drops nothing but expired free entries |
| `CursorLifetime.NewCursorIsLeasable` | src/query_state.rs:401-447 | a new cursor can be begun with its own query until its time to live has passed since the insert, and with no other query |
| `CursorLifetime.NextCursorIsLeasable` | src/query_state.rs:461-488 | the same of the cursor that a commit stores; the committed token is unknown from then on |
| `CursorLifetime.FinishAnswers` | src/query_state.rs:461-488 | the answer to a commit by the entry of the token alone: only the holder of the lease with the stored state replaces it |
| `CursorLifetime.ReleaseAnswers` | src/query_state.rs:490-506 | only the holder of the lease frees an entry, and removes it when it has expired |
| `ConcurrentSessions.EveryRunKeepsSessions` | src/stateful_query.rs:181-287 | in every interleaved run whose cursors come from searches over unchanged snapshots, every stored cursor is the last state of a session |
| `ConcurrentSessions.LeasedPageIsExact` | src/stateful_query.rs:181-287 | in every such run the page of a leased cursor is the last page of a session that returns the sorted list of all matches from its beginning without gap or repetition, whatever other callers do |
| `MatchStore.MatchReferenceStore.PurgeExpired` | src/query_state.rs:687-700 | purging removes expired entries at the front of the queue and stops at the first other one |
| `MatchStore.MatchReferenceStore.Insert` | src/query_state.rs:632-647 | an insert keeps the newest unpurged entries that leave room and appends the new one |
| `MatchStore.MatchReferenceStore.Resolve` | src/query_state.rs:649-659 | resolving purges and looks the token up in what is left |
| `MatchStore.FrontPurgeIsFullPurge` | src/query_state.rs:687-700 | purging at the front removes exactly the expired entries if and only if these stand at the front |
| `MatchStore.FrontPurgeAlwaysExact` | src/query_state.rs:687-700 | and it is exact at every time if and only if expiry times never fall along the queue |
| `MatchHistory.AlwaysEndOfHistory` | src/query_state.rs:632-709 | in every run, with clock readings in any order, the store holds the end of the insertion history |
| `MatchHistory.PurgeIsExact` | src/query_state.rs:687-700 | when readings never go back the front purge is the full purge in every state |
| `MatchHistory.ResolvesExactly` | src/query_state.rs:632-659 | then a token resolves to what was inserted under it if and only if it is unexpired and fewer than capacity inserts followed |
| `MatchHistory.InsertAnswers` | src/query_state.rs:632-647 | an insert is refused exactly for invalid data, with the error of the first check that fails, or an expiry beyond the clock range; there is always room |
| `MatchHistory.ExpiredTokenResolves` | src/query_state.rs:632-640 | readings are taken before the lock, so they may go back: two inserts after which an expired token still resolves |
| `ContextReader.BoundText` | src/context_reader.rs:664-694 | the loops that move both ends to char boundaries compute the specified crop |
| `ContextReader.ReadExact` | src/context_reader.rs:718-743 | for every chunking exactly the requested bytes, or a changed file exactly when they are not there |
| `ContextReader.CollectRanges` | src/context_reader.rs:300-321 | the bounded queue ends up holding the last complete lines of the window |
| `ContextReader.ReadBeforeLines` | src/context_reader.rs:250-353 | the lines before the match are those of the specified window, or the specified error |
| `ContextReader.BufferedReader.FillBuf` | src/context_reader.rs:544-557 | filling the buffer consumes nothing, and an empty buffer means the end |
| `ContextReader.ReadLine` | src/context_reader.rs:498-637 | in however many buffers it comes, a line is read, checked against the keyword and cut as specified within the scan budget |
| `ContextReader.ReadAfter` | src/context_reader.rs:404-437 | the loop over the lines behind the match reads what is specified |
| `ContextReader.ReadContext` | src/context_reader.rs:144-241 | the whole read gives the specified reply unless it is cancelled, late, or the stream fails |
| `ContextFacts.BoundedTextFits` | src/context_reader.rs:664-694 | a shown text is at most the maximum long, is cut only when it has to be, and stays valid UTF-8 |
| `ContextFacts.BoundedTextKeepsKeyword` | src/context_reader.rs:664-694 | cropping keeps the whole keyword |
| `ContextFacts.MatchLineRead` | src/context_reader.rs:498-637 | a match line that was read is whole, holds the keyword at the stored offset, and is shown with it within the line limit |
| `ContextFacts.PreviewsAgree` | src/context_reader.rs:507-530 | the interval preview of the reader is the sliding window of the scanner, byte for byte, and both drop a carriage return alike |
| `ContextFacts.SearchShowsKeyword` | src/scanner.rs:316-341 | what the search shows of a match always holds the keyword |
| `ContextFacts.RenderingsAgree` | src/context_reader.rs:639-662 | a line is shown alike before and behind the match except for the truncation flag of a line exactly one carriage return longer than the maximum |
| `ContextFacts.RenderingsDiffer` | src/context_reader.rs:639-662 | such a line: a letter and a carriage return, one byte allowed |
| `ContextLines.RangesAreLines` | src/context_reader.rs:304-324 | the collected ranges are whole lines, one behind the other |
| `ContextLines.BeforeIsExact` | src/context_reader.rs:250-353 | the lines returned are the nearest whole lines before the match for every window size and alignment, truncated holds exactly when asked-for existing lines are missing, and scanned is the window and, unless it begins the file, one byte more |
| `ContextLines.StartRechecked` | src/context_reader.rs:293-295 | a stored line start that begins no line any more is noticed exactly when lines before it are asked for |
| `ContextLines.JoinedLineIsShown` | src/context_reader.rs:258-264 | so without lines before it such a line is shown as the match line |
| `ContextOutcome.AfterIsExact` | src/context_reader.rs:404-437 | the lines behind the match are the next lines of the file, as many as were asked for and end within the scan budget; truncated holds exactly when another was asked for and the budget left does not reach behind the next line feed, and the bytes scanned are exact |
| `ContextOutcome.ForwardScans` | src/context_reader.rs:355-437 | from the match line on exactly the lines are read that were asked for and end within the scan budget; scanned are these lines, or the whole budget when it ends before the next line does |
| `ContextTruncation.FlagIsSpurious` | src/context_reader.rs:531-536 | truncated holds although no line is missing exactly when the scan budget is what the file still holds, the file ends in a line feed, and more lines were asked for than there are |
| `ContextTruncation.ReplyFlagIsSpurious` | src/context_reader.rs:144-241 | the same of the whole reply: it says that lines behind the match are missing though it holds them all exactly when the scan budget is as long as the file from the match line on, the file ends in a line feed, more lines were asked for than follow, and their content fits |
| `ContextTruncation.EndOfFileIsTruncated` | src/context_reader.rs:531-536 | a file of one line, under a valid configuration, whose reply says that lines behind it are missing |
| `ContextOutcome.KeptBeforeIsNearest` | src/context_reader.rs:182-194 | the content budget keeps the nearest lines before the match and no further one would fit |
| `ContextOutcome.KeptAfterIsNearest` | src/context_reader.rs:196-208 | the same behind the match |
| `ContextOutcome.ReplyIsExact` | src/context_reader.rs:144-241 | a reply is consecutive lines around one match line that shows the keyword, the nearest ones on both sides of which one more would not fit; it is truncated exactly when lines are missing or a line was cut, and its content and scan counters are the exact totals |
| `ReplyLines.ReplyShowsFile` | src/context_reader.rs:144-241 | when the reference points to a line of the file, every line of the reply is the line of the file that has its number, before, at and behind the match |
| `ContextOutcome.MatchAlwaysFits` | src/context_reader.rs:175-180 | the error that the match preview exceeds the content budget is never returned |
| `ShownLines.BehindIsShown` | src/context_reader.rs:448-496 | a line behind the match shows its beginning without a carriage return that ends it, decoded and cut at the last char boundary within the maximum; both flags are exact |
| `ShownLines.BeforeIsShown` | src/context_reader.rs:639-662 | a line before the match shows the same; its truncation flag does not count a carriage return that ends it |
| `ShownLines.FittingLineIsShown` | src/context_reader.rs:448-496 | a valid line that fits is shown as it is, unmarked |
| `ShownLines.WindowIsCentred` | src/scanner.rs:285-341 | a search result shows the decoded window of its line that keeps half of what the keyword leaves of the maximum before it, with exact flags |
| `ShownLines.CropIsCentred` | src/context_reader.rs:664-694 | a text that is too long is cropped to the char boundaries inside the window that centres the leftmost keyword |
| `ShownLines.MatchLineIsShown` | src/context_reader.rs:448-496 | the match line shows the window that centres the stored keyword, decoded, cropped again only when decoding made it too long |
| `ContextChecks.LimitsAreExact` | src/context_reader.rs:46-79 | limits are accepted exactly when they keep every bound, and an error names a bound they do not keep |
| `ContextChecks.ServiceLimits` | src/context_reader.rs:32-44 | a valid configuration gives its own line and content bounds, at most 4 MiB of its page budget to each side, and is accepted for every number of lines it allows |
| `ContextChecks.MatchRechecked` | src/context_reader.rs:355-402 | a match line within the scan budget is accepted exactly when the keyword still stands in it at the stored offset; otherwise the file has changed |
| `ContextChecks.BeforeRechecked` | src/context_reader.rs:250-330 | the lines before are read exactly when none are asked for, or the stored start still begins a line and the stored number leaves room for them |
| `ContextChecks.ReadSucceedsExactly` | src/context_reader.rs:144-180 | a read whose match line fits the scan budget succeeds exactly when the file is long enough, the lines before it are where they were, and the keyword still stands at its offset; otherwise it reports a changed file |
| `RoundTrip.ContextOfMatch` | src/context_reader.rs:144-180 | for a match of the search, in every file that extends the snapshot, the context read never reports a changed file: it succeeds, or fails exactly for too many lines or a scan budget the line does not fit |
| `RoundTrip.PageResolves` | src/stateful_query.rs:606-648 | every result of a page can be resolved in every file that extends its snapshot; every line of the reply is the line of the file with its number; the line marked as the match has the reported number and shows the keyword, and when the line has not grown it is the content the search reported, cropped only if decoding made it too long, with the same loss flag and length |
| `PathOrder.PathsOrdered` | src/source_discovery.rs:106 | the order of paths is total and strict |
| `PathOrder.PathOrderMeans` | src/source_discovery.rs:106 | paths are compared at the first component that differs, and components at the first byte that differs, the smaller one or a proper beginning coming first |
| `Discovery.FilesOfRule` | src/source_registry.rs:318-340 | a rule finds exactly the regular files configuration allows for it, except below directories whose names are not UTF-8 |
| `Discovery.RuleAllowsMeans` | src/source_registry.rs:318-340 | configuration allows a path exactly when it leads from the directory of the rule, through further directories only if the rule is recursive, to a string that is a stem with one of the suffixes |
| `Discovery.UnnamedDirectoryIsSkipped` | src/source_discovery.rs:122-143 | a valid rule and a tree with an allowed file that is never found: its directory has a name that is no string |
| `Discovery.ReadEntries` | src/source_discovery.rs:122-143 | every entry is counted, names that are not UTF-8 are left out, and the entry bound is exact |
| `Discovery.VisitEntry` | src/source_discovery.rs:152-184 | an entry is recorded, kept for later or passed over by what it really is, whatever type the listing reports |
| `Discovery.DiscoverRule` | src/source_discovery.rs:110-190 | the traversal ends, looks into each directory of the rule once, and finds exactly its files |
| `Discovery.RecordFile` | src/source_discovery.rs:194-217 | a path is recorded once, and the file bound is exact |
| `Discovery.DiscoverRegularFiles` | src/source_discovery.rs:88-192 | discovery succeeds exactly within its bounds and returns the files of all rules, sorted and each once |
| `Discovery.DiscoveredExactly` | src/source_discovery.rs:88-192 | the discovered paths are exactly the regular files that some rule allows, below directories with UTF-8 names |
| `Discovery.SnapshotFiles` | src/source_registry.rs:90-145 | the listing of a source is the explicit and the discovered files, sorted and each once, each with its identity, size and index, or the error of the first check that fails, exactly when a file is missing or a bound exceeded |
| `Discovery.ListedIsConfigured` | src/source_registry.rs:192-201 | every listed path is a configured one |

## Left out

- Clock: instants are natural numbers below 2^64; arithmetic on `Instant` beyond that is one overflow error.
- `StatefulQuery.ScanPage`: assumes that the first `size_at_snapshot` bytes of a candidate do not change while its
  identity and size do; rewriting in place is not detected by the service either.
- `StatefulQuery.OpenSnapshotFile`: one oracle stands for opening, identity and size checks, and the configured-path
  check; which of the possible errors it reports is not modelled.
- `StatefulQuery.ReadChunk`: reads a chunk from the bytes opened for it; opening, seeking and `take` are one step.
- `QueryEngine.Execute`: the chunk reader and the turn decision it duplicates from the stateful engine are shared with
  it here.
- `Watermark.KeepEarliest`: the binary heap is a bag whose pop takes a greatest key; its array layout is not modelled.
- `Scanner.ScanReader`: offsets are unbounded integers; the one addition the source leaves unchecked,
  `absolute_offset + 1` at 2^64 - 1, is not modelled, and a reader is interrupted finitely often.
- `ContextReader.ReadLine`: the checked additions on counters that the scan budgets keep below 64 MiB are not
  repeated as branches.
- `Discovery.DiscoverRegularFiles`: directories are visited in any order, so the order in which the source sorts entries
  and pushes subdirectories is not modelled, nor are trees that change during the traversal.
- `Discovery.SnapshotFiles`: the FNV hash in file identifiers is any function of source, path and index.
- `Search.BuildCandidates`: takes what listing each source comes to as given; why a listing fails is not modelled.
- `search` as one method: validation of the request, page, usage, continuation and commit are separate members, and the
  registration of match references is the store's own operation.
- `read_referenced_context`: looking up the source and checking the identity of the reopened file.
- `src/time_filter.rs`: timestamp parsing is any function of the line prefix; the range, the decisions and the counters
  are modelled.
- `src/config.rs`: validated bounds appear as preconditions; text and path validation is not modelled.
- `src/safe_fs.rs`: kernel path resolution; the tree holds what is reachable through real directories.
- `src/scan_executor.rs`, `src/context_executor.rs`, `src/runtime.rs`: tokio semaphores, blocking tasks and channels.
- `src/mcp_server.rs`, `src/mcp_model.rs`, `src/response_limit.rs`, `src/tool_error.rs`, `src/stateful_context.rs`: the
  server, its JSON types, size limits and error mapping.
- Token and lease randomness, and mutex poisoning: new tokens are not in use, lease identifiers are never reused.
