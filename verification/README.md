# Verified model of the AIAL assistant's cores

AIAL answers questions about business data. A question becomes a typed query plan, the plan is compiled for
Oracle or for Cube, results are secured, cached and streamed to a page, and reports are exported and scheduled.
This project models eight cores of that system in Dafny and proves what they promise each other. `dafny verify
dfyconfig.toml` checks all of it.

| modules | what they model |
|---|---|
| `QueryDsl`, `SqlCompiler`, `SqlText`, `CubeCompiler`, `PlanEquivalence`, `PlanMeaning` | the plan, its two compilers, evaluators for both outputs, a reader of the emitted clause, what each output selects |
| `Calendar`, `TimeRanges`, `TimeClause` | the Gregorian calendar (section 5.7 and Appendix C of RFC 3339), time phrases, their clause |
| `RedisStore`, `CacheModel`, `QueryCache`, `CacheRuns` | the store with lazy expiry, the cache on it, its refinement to a flat table of live entries, runs |
| `Chunker`, `ChunkOverlaps` | the windowing loops over sentences, where chunks end and overlap |
| `StreamQueue`, `StreamRuns`, `SseClient` | the event queue, every interleaving of producer and connections, frames and the browser's read loop |
| `MetricVersions`, `MetricMeaning`, `MetricRestarts`, `MetricHistory`, `MetricService` | the version log, its versions field by field, restarts from the catalog, the log across restarts, the service object |
| `Ranking`, `Fusion`, `FusionScores`, `ResolverGate`, `ResolverMeaning`, `Embedding`, `EmbeddingMeaning` | stable sorting, rank fusion and its scores, the selection gate and its outcomes, hashed vectors and their coordinates |
| `Worksheet`, `PdfText`, `Pdf` | exports |
| `Masking`, `MaskedRows` | column security and masking, what a user sees cell by cell |
| `Schedules`, `ScheduleMeaning`, `ScheduleRuns`, `ScheduleService` | scheduled reports with approval, their fields, runs, the service objects |

`Wrappers`, `Text` and `Numbers` hold options and results, decimal printing, and the smaller and larger of two numbers.

## Results that differ from what the code or its documents say

- Both back ends agree on rows with nulls only outside negations: Cube keeps a null under `ne` and `not_in`, Oracle
  does not (`PlanEquivalence.BackEndsAgree`, `PlanEquivalence.NullUnderNegation`).
- A chunk can be larger than the documented chunk_size, because the overlap carried over is not checked again;
  `Chunker.SizeBoundExactly` says exactly when.
- With top_k of 1 the resolver does not see a tie (`ResolverGate.SelectsOnlyWinnersExactly`).
- The bounds of a time range are pasted between quotes without a check, so a quote in one changes the meaning of the
  clause: the conjuncts before and after it become sides of a disjunction, and the department no longer restricts
  the other side (`SqlText.QuotedBound`). `SqlText.ClauseReadsBack` says that quotes in the bounds are the only way, and
  `SqlText.TextMeaning` and `PlanEquivalence.EmittedTextAgrees` hold of the text without them.
- A running connection that is dropped takes the queue with it. Dropped before the last push, it makes other connections
  to the same request id end normally without the events pushed afterwards
  (`StreamRuns.SecondConnectionCanLoseEvents`); dropped later, without the events still queued
  (`StreamRuns.LateLeaveCanLoseEvents`). `StreamRuns.EndedExactly` says exactly which steps lose events, and
  `StreamRuns.EndedGetsEverything` that nothing is lost when no running connection is dropped before all is delivered.
- The export completes before its audit record is written, and an error of that write counts as a failed try. While the
  audit database fails, a due run completes the same export three times, records a failure and stays due
  (`Schedules.OutageProduces`, `Schedules.OutageRepeats`). `ScheduleRuns.DistanceExactly`,
  `ScheduleRuns.AlwaysDistanceExactly`, `Schedules.OneOutcomeExactly` and `Schedules.HonestExactly` give the exact
  conditions for reports a cadence apart, for one delivery record, and for records that are true.
- A carriage return in a PDF line is read as a line feed (`PdfText.ReturnIsLost`, `PdfText.EscapedReadsBack`).
- A plan without a time range is narrowed by Oracle, and not by Cube, to a time phrase in the text of the question
  (`PlanEquivalence.PhraseOnlyInOracle`); `PlanEquivalence.PhraseNarrows` says by exactly what.
- The conversion of an exclusive end date catches `ValueError` but not the `OverflowError` of the first calendar day
  (`PlanEquivalence.InclusiveEndFails`).

## What is taken as given

- SHA-256 keys, request fingerprints and drawn ids: equal only for equal inputs, and fresh when drawn.
- The clock of the cache never runs backwards. The scheduler's clock is arbitrary.
- Upper-casing, `LIKE`, text similarity, case folding, JSON, the text masker, the planner and the square root are
  function parameters; where a law is needed (a printed event parses back, the root squares to its argument) the
  lemma requires it.
- Cube compares dimensions as text, takes a date range up to the last second of its last day, and keeps nulls under
  `notEquals`. Oracle dates have a precision of one second; names are compared without case.
- A column name is the name of a stored column. An identifier that Oracle reserves, such as `NULL`, `USER` or `ROWNUM`,
  passes the check of the compiler and would be read by Oracle as something else.
- Filter values are not empty. Oracle reads an empty bind text as null, so under `ne` with an empty value it selects no
  row; the evaluator of the conjuncts compares it as an ordinary text.
- Characters stand for bytes where a file is written; every character of a frame is ASCII because `json.dumps`
  escapes the rest.
- Scores are reals, not floating point numbers.

## Model

| member | source | states |
|---|---|---|
| `PlanEquivalence.BackEndsAgree` | services/orchestration/semantic/sql_execution.py:95-175 | For every comparable plan and every row, nulls included, the compiled Oracle conjuncts under their final parameters select the row if and only if the row is in the caller's department, the Cube query keeps it, and no negated comparison meets a null |
| `PlanEquivalence.EmittedTextAgrees` | services/orchestration/semantic/sql_execution.py:178 | The same for the text that is sent to Oracle, as a reader of it understands it |
| `PlanEquivalence.BackEndsAgreeOnFilledRows` | services/orchestration/semantic/cube_runtime.py:178-224 | On rows whose filtered dimensions are filled in, both back ends select the same rows |
| `PlanMeaning.DepartmentSeen` | services/orchestration/semantic/sql_execution.py:108-111 | A caller who is no administrator and has a department is given rows of exactly that department only, whatever the plan holds, by the conjuncts and by their text wherever that reads as a conjunction (`SqlText.QuotedBound` is a text that does not) |
| `PlanMeaning.DepartmentIgnored` | services/orchestration/semantic/sql_execution.py:108-111 | For an administrator, and for a caller without a department, no row is selected or left out because of its department |
| `PlanMeaning.SelectedInFull` | services/orchestration/semantic/sql_execution.py:105-175 | Which rows Oracle returns, told of plan, caller and row alone: the caller's department, every filter on a plain column that is none of the five period columns (values in upper case, the first only for eq and ne, nulls never, numbers compared as numbers), and the days of the plan or, without a range in the plan, of the phrase |
| `PlanMeaning.TextSelectsInFull` | services/orchestration/semantic/sql_execution.py:105-178 | The same of the text that is sent, when the bounds hold no quote |
| `PlanMeaning.CubeKeepsInFull` | services/orchestration/semantic/cube_runtime.py:178-233 | Which rows Cube returns, told in the same way: all values as written, `like` for any of them, nulls kept under negations, the same half-open days, and none when the range ends on the first day of the calendar |
| `PlanMeaning.CubeFiltersWritten` | services/orchestration/semantic/cube_runtime.py:178-201 | The exact Cube filters of each operator, under the member name of the column |
| `PlanMeaning.OneFilterText` | services/orchestration/semantic/sql_execution.py:155-163 | A plan with one filter prints `1 = 1` and that filter's condition, or `1 = 1` alone when the filter has none |
| `PlanMeaning.OperatorTexts` | services/orchestration/semantic/sql_execution.py:211-249 | The exact condition printed for each operator, and that it is missing exactly for a filter without its values |
| `PlanMeaning.ScopedRangeText` | services/orchestration/semantic/sql_execution.py:108-111 | The exact clause and parameters of a department and a range without filters |
| `PlanEquivalence.NullUnderNegation` | services/orchestration/semantic/cube_runtime.py:186-191 | A concrete row with a null under `ne` that Cube keeps and Oracle drops: equality on all rows is false |
| `PlanEquivalence.AlignedExactly` | services/orchestration/semantic/sql_execution.py:215-234 | For eq, ne, in and not_in the condition on the values (as many upper-cased as plain ones, set for set, one value for eq and ne) is exact: it holds if and only if no cell tells the back ends apart |
| `PlanEquivalence.FilterAgrees` | services/orchestration/semantic/cube_runtime.py:178-201 | One aligned filter keeps a cell in Cube exactly when its Oracle condition is true of it, or the cell is null under a negation |
| `PlanEquivalence.FiltersAgree` | services/orchestration/semantic/cube_runtime.py:178-201 | The same for the first n filters of a plan, by induction over the list |
| `PlanEquivalence.TimesAgree` | services/orchestration/semantic/cube_runtime.py:204-224 | The half-open Oracle condition and the inclusive Cube range keep the same instants, across month, year and leap-day ends; without both bounds neither restricts |
| `PlanEquivalence.DatesAgree` | services/orchestration/semantic/cube_runtime.py:227-233 | Start up to but excluding end is the same set of instants as start to the last second of the day before end |
| `PlanEquivalence.InclusiveEndFails` | services/orchestration/semantic/cube_runtime.py:227-233 | The end date conversion raises exactly for the first day of the calendar |
| `PlanEquivalence.PhraseNarrows` | services/orchestration/semantic/sql_execution.py:170-175 | For a plan without a time range of its own, Oracle selects what Cube keeps in scope, negated nulls aside, narrowed to the phrase found in the text of the question |
| `PlanEquivalence.PhraseAgreesExactly` | services/orchestration/semantic/sql_execution.py:170-175 | Without a range of the plan's own, the phrase changes nothing for any row if and only if there is none with a range |
| `PlanEquivalence.PhraseOnlyInOracle` | services/orchestration/semantic/sql_execution.py:170-175 | A concrete row that Cube keeps and Oracle drops because only Oracle is given the phrase |
| `PlanEquivalence.MemberFindsColumn` | services/orchestration/semantic/cube_model.py:84-85 | In a catalog no two columns of which share a member name, the printed member of a column, in whatever letter case the plan writes it, leads back to the catalog's column of that name |
| `CubeCompiler.MemberNamesApart` | services/orchestration/semantic/cube_model.py:245-253 | Plain column names that differ in more than case get different member names |
| `CubeCompiler.MemberNamesCollide` | services/orchestration/semantic/cube_model.py:245-253 | Two concrete columns whose member names collide, so the condition is needed |
| `CubeCompiler.SafeNameShape` | services/orchestration/semantic/cube_model.py:245-253 | Any text gets a member name that is a lower-case identifier with single inner underscores and holds the letters and digits of the text in their order; `metric` for none, and an m in front of a leading digit |
| `CubeCompiler.CompileCubeFilters` | services/orchestration/semantic/cube_runtime.py:178-201 | The loop emits, in order, the Cube filters of every filter whose column is no time column |
| `SqlCompiler.BuildWhere` | services/orchestration/semantic/sql_execution.py:105-178 | The loop emits the joined conjuncts and the parameter dictionary of the specification: scope, filters by position, time; what they select is `PlanMeaning.SelectedInFull` |
| `SqlCompiler.CompileFilter` | services/orchestration/semantic/sql_execution.py:211-249 | Fragment and parameters of one filter, each operator with its guard on the number of values |
| `SqlCompiler.BindNameInjective` | services/orchestration/semantic/sql_execution.py:214-239 | Two bind names are equal only for the same lower-cased column, the same filter index and the same slot, although all three are run together in one text |
| `SqlCompiler.BindNameNotDepartment` | services/orchestration/semantic/sql_execution.py:110-111 | No filter's bind name is the department's |
| `SqlCompiler.NothingOverwritten` | services/orchestration/semantic/sql_execution.py:155-163 | After all updates the dictionary still holds every filter's own parameters |
| `SqlCompiler.ScopeNotOverwritten` | services/orchestration/semantic/sql_execution.py:109-111 | After all updates the department parameter still holds the department |
| `SqlCompiler.FilterMeaning` | services/orchestration/semantic/sql_execution.py:211-249 | A filter's condition under the final dictionary is the filter's own three-valued meaning on the cell |
| `SqlCompiler.WhereMeaning` | services/orchestration/semantic/sql_execution.py:105-175 | The list of compiled conjuncts is true of a row exactly when scope, every kept filter and the time range hold of it; what the text printed from it means is `SqlText.TextMeaning` |
| `SqlCompiler.BindsComplete` | services/orchestration/semantic/sql_execution.py:155-178 | The binds that occur in the clause are exactly the keys of the dictionary |
| `SqlText.ReadWhereOf` | services/orchestration/semantic/sql_execution.py:178 | A parser of the emitted syntax reads the printed clause back as the very list of conditions it was printed from |
| `SqlText.ClauseReadsBack` | services/orchestration/semantic/sql_execution.py:105-178 | The text sent to Oracle reads back as the compiled conjuncts, for any filters, columns and values, if and only if the bounds of the time range hold no quote |
| `SqlText.TextMeaning` | services/orchestration/semantic/sql_execution.py:105-178 | With no quote in the bounds, that text under its parameters selects a row if and only if the row is in the caller's department and every kept filter and the time range hold of it |
| `SqlText.QuotedBound` | services/orchestration/semantic/sql_execution.py:252-255 | A concrete start with a quote in it: the compiled conjuncts select no row, but the text sent is a disjunction with a side that is always true and names no department, and does not read back |
| `TimeRanges.RangeIsMeaning` | services/orchestration/semantic/time_parser.py:196-266 | For every phrase and every day, a date is in the emitted half-open range if and only if the phrase stands for it in calendar terms (days back, Monday weeks, months, quarters, years) |
| `TimeRanges.RangeNotEmpty` | services/orchestration/semantic/time_parser.py:196-266 | Every dated range has start before end |
| `TimeRanges.LastDaysCount` | services/orchestration/semantic/time_parser.py:204-207 | "N days" from 1 to 366 holds exactly N days, the last of which is today; "0 days" holds today alone, and more than 366 hold 366 |
| `TimeRanges.LastMonthsStart` | services/orchestration/semantic/time_parser.py:209-217 | "N months" from 1 to 24 starts on the first of the month N months back; 0 starts one month back, more than 24 exactly two years back; all end with today |
| `TimeRanges.LastSelects` | services/orchestration/semantic/time_parser.py:204-217 | The days both select, with the three cases of N written out |
| `TimeRanges.WeeksStartOnMonday` | services/orchestration/semantic/time_parser.py:222-228 | Every week range starts on a Monday, holds seven days, and lies the stated number of weeks before the one with today |
| `TimeRanges.KindReported` | services/orchestration/semantic/time_parser.py:196-268 | Each label is given to the ranges of its phrase and to no other |
| `TimeRanges.BorrowMonths` | services/orchestration/semantic/time_parser.py:213-216 | The borrow loop ends in a month 1 to 12 and preserves 12 * year + month minus N |
| `TimeRanges.WeeksMeet` | services/orchestration/semantic/time_parser.py:223-228 | Last week ends where this week starts |
| `TimeRanges.PreviousMeetsCurrent` | services/orchestration/semantic/time_parser.py:231-245 | Last month ends where this month starts, last year where this year starts |
| `TimeRanges.QuartersTile` | services/orchestration/semantic/time_parser.py:248-257 | Every day of a year is in exactly one of its four quarters, and no other day is in any |
| `TimeRanges.MonthsTile` | services/orchestration/semantic/time_parser.py:261-266 | Every day of the current year is in exactly one of the twelve months, and no other day is in any, for every year before 9999, in which neither the year nor its December has a range |
| `TimeRanges.ResolveFailsExactly` | services/orchestration/semantic/time_parser.py:196-266 | A range raises exactly when it would leave years 1 to 9999, phrase by phrase |
| `TimeClause.PhraseSelectsItsDays` | services/orchestration/semantic/time_parser.py:34-38 | The clause printed for a resolved phrase is true of a row exactly when the row's day is one the phrase stands for |
| `TimeClause.NoRangeNoClause` | services/orchestration/semantic/time_parser.py:36-37 | Phrases without a range print no clause |
| `Calendar.AddDaysOrdinal` | services/orchestration/semantic/time_parser.py:196-239 | Adding days moves the day number by that many, and fails exactly outside the calendar |
| `Calendar.OrdinalOrder` | services/orchestration/semantic/time_parser.py:196-266 | Dates are ordered and equal as their day numbers are, leap years included |
| `Calendar.IsoReads` | services/orchestration/semantic/time_parser.py:34-38 | A printed date has ten characters and reads back as itself |
| `Calendar.IsoExact` | services/orchestration/semantic/cube_runtime.py:230 | A text read as a date is the text that date prints as |
| `Calendar.IsoInFull` | services/orchestration/semantic/time_parser.py:34-38 | A printed date is four digits that read as the year, a hyphen, two as the month, a hyphen, two as the day |
| `Calendar.ValidInFull` | services/orchestration/semantic/time_parser.py:196-266 | The days that exist, month by month, with the rule for 29 February |
| `Calendar.WeekdaysFollow` | services/orchestration/semantic/time_parser.py:223 | The weekday of the next day is the next weekday |
| `Calendar.CalendarStartsOnMonday` | services/orchestration/semantic/time_parser.py:223 | Day number 1 is a Monday |
| `Text.DecInFull` | services/orchestration/semantic/sql_execution.py:214-224 | Numbers in bind names are printed in decimal, the most significant digit first |
| `QueryCache.QueryResultCache.FindBestMatch` | services/orchestration/cache/query_result_cache.py:269-285 | The answer belongs to the scope, was live at the start and is similar by at least 0.85; no entry of the scope that is still live is better, and None only if all are below 0.85; one hit or one miss is counted; the table loses only what expired |
| `QueryCache.QueryResultCache.StoreResult` | services/orchestration/cache/query_result_cache.py:247-267 | The flat table gains or replaces the entry of this scope, owner and intent, to last 300 seconds from the store, and leaves all others to time; the six store calls in between never break the invariant |
| `QueryCache.QueryResultCache.InvalidateUserEntries` | services/orchestration/cache/query_result_cache.py:287-307 | Exactly the entries whose owner is the user leave the table; the count, filed under the given reason and no other, lies between those that stay live throughout and those live at the start |
| `QueryCache.QueryResultCache.InvalidateQueryEntries` | services/orchestration/cache/query_result_cache.py:309-323 | Exactly the entries of the scope with that intent leave the table, whoever owns them; the count is filed under the given reason and no other |
| `QueryCache.QueryResultCache.LoadEntry` | services/orchestration/cache/query_result_cache.py:235-245 | An entry is read exactly when it is live at the moment of reading |
| `QueryCache.QueryResultCache.RecordInvalidation` | services/orchestration/cache/query_result_cache.py:328-331 | The count of this reason grows, every other stays, and the total stays the sum over all reasons |
| `QueryCache.TotalAfterAdding` | services/orchestration/cache/query_result_cache.py:328-331 | Adding to one reason's count adds as much to the sum over reasons |
| `QueryCache.RemovedCount` | services/orchestration/cache/query_result_cache.py:287-323 | How many deletions a sweep over an index can have made while time passed |
| `CacheModel.WriteAllStores` | services/orchestration/cache/query_result_cache.py:261-266 | Writing value, expiry, two index members and two index expiries one after the other, with time passing between, amounts to one store in the flat table and restores the index invariant |
| `CacheModel.PurgeKeepsLive` | services/orchestration/cache/query_result_cache.py:51-55 | Purging any expired key, an index included, leaves the live table and the index invariant as they are |
| `CacheModel.RemoveMemberKeepsLive` | services/orchestration/cache/query_result_cache.py:76-84 | Taking a dead member out of an index, and the index with its last member, leaves the live table as it is |
| `CacheModel.DeleteUnlinked` | services/orchestration/cache/query_result_cache.py:303-304 | Deleting an entry already taken out of its indexes removes just that entry from the table |
| `CacheRuns.InvalidatedStaysGone` | services/orchestration/cache/query_result_cache.py:287-307 | Over any run, after a user's invalidation no table shows an entry of that user until that user stores again |
| `CacheRuns.InvalidatedQueryStaysGone` | services/orchestration/cache/query_result_cache.py:309-323 | Over any run, after a query's invalidation no table shows an entry of that scope and intent until one is stored again |
| `CacheRuns.TablesKeyed` | services/orchestration/cache/query_result_cache.py:247-267 | Over any run, every entry shown stands under the key of its own scope, owner and intent |
| `CacheRuns.StoredStaysFindable` | services/orchestration/cache/query_result_cache.py:247-323 | Over any run, a stored entry stays in the table for five minutes unless it is overwritten or its own owner or query is invalidated |
| `CacheRuns.NothingOutlivesItsTime` | services/orchestration/cache/query_result_cache.py:51-55 | Over any run, every entry shown was stored at most five minutes before |
| `RedisStore.InMemoryRedis.SRem` | services/orchestration/cache/query_result_cache.py:76-84 | Removes the member, and the set with its expiry once it is empty |
| `RedisStore.InMemoryRedis.PurgeIfExpired` | services/orchestration/cache/query_result_cache.py:51-55 | Drops value, set and expiry of a key exactly when its time has come |
| `Chunker.ChunkText` | services/rag/ingestion/chunker.py:50-107 | The nested loops emit, numbered from 0, with the given document, page and metadata, exactly the joined texts of the specified slices of the concatenated sentence tokens |
| `Chunker.ChunksCoverDocument` | services/rag/ingestion/chunker.py:67-107 | The slices start at the first token, end at the last, leave no gap, have non-decreasing ends and at most chunk_size + chunk_overlap tokens |
| `Chunker.SizeBoundExactly` | services/rag/ingestion/chunker.py:58-100 | The documented bound of chunk_size tokens holds for a document if and only if no sentence fits a chunk alone but not together with the overlap carried to it |
| `Chunker.SizeBoundFails` | services/rag/ingestion/chunker.py:93-100 | A concrete document with a chunk above chunk_size |
| `Chunker.WindowSentence` | services/rag/ingestion/chunker.py:81-88 | The sliding window over an oversized sentence emits the specified windows and ends |
| `ChunkOverlaps.ChunksOverlap` | services/rag/ingestion/chunker.py:67-105 | Each chunk repeats the last chunk_overlap tokens of the one before (all of a shorter one), nothing where an oversized sentence starts, windows inside such a sentence start chunk_size - chunk_overlap apart, and the chunk behind it repeats its last chunk_overlap tokens; each chunk ends a window, the document, or in front of a sentence that would not fit |
| `StreamQueue.StreamEventQueue.NextReady` | services/orchestration/streaming/queue.py:41-52 | One turn of next_event: over, an event from the front, or wait, with the queue changed accordingly |
| `StreamQueue.StreamEventQueue.Push` | services/orchestration/streaming/queue.py:26-29 | Appends for a known id, is dropped for any other; other ids keep their queues |
| `StreamQueue.StreamEventQueue.Drain` | services/orchestration/streaming/queue.py:31-39 | Yields the queued events in order and leaves the queue empty |
| `StreamQueue.StreamEventQueue.Answer` | services/orchestration/routes/query.py:926-958 | The id is closed after the row event and done; after done alone without rows; after the row event and the error, or the error alone, when building done fails; and after the error alone when the graph fails; for an unknown id nothing is queued |
| `StreamQueue.StreamEventQueue.PublishQueryResult` | services/orchestration/routes/query.py:713-745 | A row event only when there are rows, then done, then close; an error while building done leaves the id open |
| `StreamQueue.ScriptEndsOnce` | services/orchestration/routes/query.py:713-745 | Whatever fails, exactly one done or error event is sent, as the last event |
| `StreamRuns.DeliveriesArePrefix` | services/orchestration/streaming/queue.py:41-63 | For every interleaving of a producer and any number of connections, deliveries in time order are a prefix of the pushes; once a connection stops because the id was closed, the producer has finished and the queue is empty |
| `StreamRuns.AllDeliveredExactly` | services/orchestration/streaming/queue.py:41-63 | With any number of connections, once one has stopped because the id was closed, everything pushed was delivered if and only if no running connection was dropped while there was still something to push; a connection whose generator never ran cleans nothing up |
| `StreamRuns.EndedGetsEverything` | services/orchestration/routes/stream.py:20-29 | With any number of connections, if no running one is dropped while something is still to push or still queued, then once some connection has ended by itself, because the id was closed or because it was gone, everything was delivered |
| `StreamRuns.EndedExactly` | services/orchestration/routes/stream.py:20-29 | Once some connection has ended by itself and none waits on the queue any more, everything was delivered if and only if no step lost an event: a running connection dropped while something was to push or more was queued than the other holders of the queue could take, or such a holder giving up although it was needed |
| `StreamRuns.TerminalIsLast` | services/orchestration/streaming/queue.py:41-63 | A delivered done or error event is the last delivery to anybody and the last event of the script |
| `StreamRuns.SoleConnectionGetsEverything` | services/orchestration/routes/stream.py:20-29 | A single connection, unless it is itself dropped, stops only because the id was closed and only after the whole script was delivered to it |
| `StreamRuns.ServedConnectionEnds` | services/orchestration/streaming/queue.py:41-63 | From every point of every run at which the id is known, the remaining pushes, the closing and enough polls of any live connection end that connection because the id was closed, with everything delivered |
| `StreamRuns.SoleConnectionEnds` | services/orchestration/routes/stream.py:20-29 | So a single connection, as long as it is live, can always be served to its end |
| `StreamRuns.SecondConnectionCanLoseEvents` | services/orchestration/routes/stream.py:20-29 | A concrete run in which one of two running connections is dropped before the only push: the other ends because the id was closed, without that event |
| `StreamRuns.LateLeaveCanLoseEvents` | services/orchestration/routes/stream.py:20-29 | A concrete run in which one is dropped after the last push, before anybody took the event: the other ends because the id is gone, without it |
| `StreamRuns.RunInv` | services/orchestration/streaming/queue.py:41-63 | Every step keeps the queue invariant: delivered plus queued events are the accepted part of the script |
| `SseClient.ReadStream` | apps/chat/src/hooks/useSSEStream.ts:153-205 | The buffered line loop reports, for any text cut anywhere, what a reader of the whole text reports; the status is an error exactly when the last reported event is one |
| `SseClient.ReadFragment` | apps/chat/src/hooks/useSSEStream.ts:157-200 | One turn of it keeps the events of all complete lines read and the unfinished line in the buffer, or stops with the whole report |
| `SseClient.ReadLines` | apps/chat/src/hooks/useSSEStream.ts:164-200 | The inner loop adds the events of the lines up to the first done or error and stops there; unreadable lines are skipped |
| `SseClient.SplitAppend` | apps/chat/src/hooks/useSSEStream.ts:161-162 | More text changes only the last, unfinished line |
| `SseClient.SplitJoins` | apps/chat/src/hooks/useSSEStream.ts:161 | The pieces joined by newlines are the text, and no piece holds a newline |
| `SseClient.FramesArrive` | services/orchestration/streaming/events.py:27-29 | For any events and any cutting of their frames the client reports exactly the events up to and including the first done or error |
| `SseClient.BrokenOffIsPrefix` | apps/chat/src/hooks/useSSEStream.ts:157-162 | A connection that breaks off anywhere, even inside a frame, has reported a prefix of that |
| `SseClient.AnswerReachesPages` | services/orchestration/routes/query.py:926-958 | From the job that answers to the pages, for any number of connections, any interleaving and any cutting of the text: each page reports what was delivered to its connection; and everything the job sent was delivered under the exact conditions of `StreamRuns.AllDeliveredExactly`, once a connection stopped because the id was closed, and `StreamRuns.EndedExactly`, once one ended in whichever way |
| `SseClient.AnswerReachesPage` | services/orchestration/routes/query.py:926-958 | With one connection that has stopped without being dropped, the page has reported row and done, done alone, row and error, or the error alone, as the answering went, in that order |
| `MetricVersions.RunKeeps` | services/orchestration/semantic/management.py:236-400 | Over any run of publish, rollback and delete, logs only grow at the end, the active version is the last one, each previous_formula is the formula shown just before (None after a delete), each deletion copies what was shown, each rollback an earlier version |
| `MetricVersions.StepShows` | services/orchestration/semantic/management.py:306-400 | A rollback shows its target's content again, a delete shows nothing, a publish shows the cleaned input; an unknown target changes nothing |
| `MetricMeaning.PublishInFull` | services/orchestration/semantic/management.py:264-304 | A publish adds one version under the stripped term and shows it: each of the 24 fields of the input cleaned into the field of the same name, with id, author, time, action and the formula shown before |
| `MetricMeaning.RollbackInFull` | services/orchestration/semantic/management.py:306-356 | A rollback to any version of the log adds one with that version's term and content, its own id, author and time, the stripped reason, and the formula shown before, and shows it |
| `MetricMeaning.RollbackToUnknown` | services/orchestration/semantic/management.py:315-317 | A rollback to an id that is not in the log changes nothing |
| `MetricMeaning.DeleteInFull` | services/orchestration/semantic/management.py:358-400 | A delete of a shown metric adds one version with its term and content and the stripped reason, and shows nothing; of none it changes nothing |
| `MetricMeaning.OthersStay` | services/orchestration/semantic/management.py:236-400 | A command leaves the logs of all other terms as they are |
| `MetricMeaning.InputIsCleaned` | services/orchestration/semantic/management.py:266-298 | Field by field: texts and lists stripped, empty options absent, empty records absent, joins and the time of the last sync as given |
| `MetricMeaning.StrippedOnly` | services/orchestration/semantic/management.py:269 | The stripped text is the one without white space at its ends that is left when white space is taken off both |
| `MetricMeaning.StripListStrips` | services/orchestration/semantic/management.py:21-22 | A normalised list holds, in order, the stripped texts that are not blank |
| `MetricMeaning.RereadInFull` | services/orchestration/semantic/management.py:478-529 | What is read back from the store, field by field: the same but for empty optional texts, which are absent |
| `MetricVersions.StepKeeps` | services/orchestration/semantic/management.py:236-400 | One command with a fresh id keeps all of that and appends only |
| `MetricVersions.CurrentIsLast` | services/orchestration/semantic/management.py:220-231 | The metric shown is the last version of its log, unless that is a deletion |
| `MetricVersions.StripListTwice` | services/orchestration/semantic/management.py:21-22 | Normalising a list of texts again changes nothing |
| `MetricRestarts.RestartsAreInvisible` | services/orchestration/semantic/management.py:188-203 | For every run and every way of restarting in between, with the rows coming back in any order, each term shows the same metric and has the same versions as without restarts, up to empty optional texts |
| `MetricHistory.RestartedLogsFollow` | services/orchestration/semantic/management.py:188-400 | For every run with restarts: the commands alone determine a log per term in which each version follows from those before it; the service holds exactly the versions of that log, each with the formula shown before it, up to empty optional texts, and shows the last one unless that is a deletion |
| `MetricHistory.RestartedLogsGrow` | services/orchestration/semantic/management.py:188-400 | As a run with restarts goes on its logs only grow at the end, and the service loses no version, up to empty optional texts |
| `MetricHistory.ServiceRunsLog` | services/orchestration/semantic/management.py:236-400 | Without restarts the service's memory is the memory of the version log |
| `MetricRestarts.RunTells` | services/orchestration/semantic/management.py:188-231 | Service memory, stored rows and heads tell the same as a ledger that never restarts |
| `MetricRestarts.LoadedTells` | services/orchestration/semantic/management.py:188-203 | Loading the rows, in any order, brings back a memory that tells the same |
| `MetricRestarts.TidyReread` | services/orchestration/semantic/management.py:478-529 | Rereading a stored version changes nothing but empty optional texts, which become absent |
| `MetricRestarts.NextVersionTidy` | services/orchestration/semantic/management.py:236-400 | Every version a command makes has stripped texts and lists |
| `MetricRestarts.NextVersionTrimmed` | services/orchestration/semantic/management.py:236-400 | What a command makes does not depend on empty optional texts of the versions it looks at |
| `MetricService.SemanticLayerService.PublishMetric` | services/orchestration/semantic/management.py:236-304 | Memory, rows and heads after a publish are those of the specification; the version returned has the given id, author and time, the stripped term, the cleaned input and the formula shown before |
| `MetricService.SemanticLayerService.RollbackMetric` | services/orchestration/semantic/management.py:306-356 | The same for rollback; nothing changes when the target is unknown |
| `MetricService.SemanticLayerService.DeleteMetric` | services/orchestration/semantic/management.py:358-400 | The same for delete; nothing changes when no metric is shown |
| `MetricService.SemanticLayerService.GetMetric` | services/orchestration/semantic/management.py:220-231 | The version with the active id, or None for an unknown or deleted metric |
| `MetricService.SemanticLayerService.constructor` | services/orchestration/semantic/management.py:188-203 | Starting on a store groups the rows by term and takes over the heads |
| `MetricService.CatalogStore.AppendSemanticVersion` | services/orchestration/persistence/config_catalog_store.py:319-353 | A row whose id is there already is not written again; the head always is |
| `Fusion.ReciprocalRankFusion` | services/rag/composition/rrf.py:20-33 | The nested loops over two dictionaries and the final sort return the specified fusion |
| `Fusion.AddItem` | services/rag/composition/rrf.py:24-29 | The body of the inner loop adds the reciprocal rank to the score and keeps the item met first |
| `Fusion.FusedOnce` | services/rag/composition/rrf.py:20-33 | Each distinct id comes out once, with the sum of its reciprocal ranks, and scores never rise |
| `FusionScores.FusedInFull` | services/rag/composition/rrf.py:24-29 | Every score is the sum, over all places of the id, of one over k plus the rank, ranks counted from one in each list |
| `FusionScores.OnePlace` | services/rag/composition/rrf.py:25 | Of one list of distinct ids, item j scores one over k + j + 1 |
| `Fusion.FusedHas` | services/rag/composition/rrf.py:20-33 | An id comes out if and only if some list holds it |
| `Fusion.AheadComesFirst` | services/rag/composition/rrf.py:20-33 | An item ranked strictly above another in every list that holds the other comes out before it, for every constant k |
| `Fusion.FirstMet` | services/rag/composition/rrf.py:27 | The entry of an id carries the first item met under it |
| `Fusion.MergeResults` | services/rag/composition/nodes.py:62-83 | Fusion of both lists with constant 60 when both are non-empty, otherwise the non-empty one as it is |
| `Fusion.NamesInFull` | services/rag/composition/nodes.py:62-83 | Rows are named by place, passages by document and page, and a passage keeps its similarity as its score |
| `Fusion.ResultsAlternate` | services/rag/composition/nodes.py:62-83 | Rows and passages alternate, row first, followed by the longer tail, when no two passages share document and page |
| `Fusion.TwoListsAlternate` | services/rag/composition/rrf.py:20-33 | Two lists without a common id fuse into their alternation, for every constant k |
| `Ranking.SortDescSorts` | services/rag/composition/rrf.py:31 | The sort returns a permutation with non-increasing keys |
| `Ranking.SortDescAppend` | services/rag/composition/rrf.py:31 | Two sorted sequences one after the other sort into their stable merge |
| `ResolverGate.Resolve` | services/orchestration/semantic/resolver.py:139-229 | The loop and the gate decide as specified, for any planner |
| `ResolverMeaning.DecideInFull` | services/orchestration/semantic/resolver.py:161-229 | Every outcome: no match without a viable candidate; otherwise the candidate the planner names first, or the best, with the smaller of both confidences when one was named; low confidence below 0.62, ambiguous when asked to clarify or ahead of the second by less than 0.08, selected otherwise |
| `ResolverMeaning.CandidatesInFull` | services/orchestration/semantic/resolver.py:156-159 | The candidates are the first top_k of the metrics worth at least 0.18 or with something to report, best first |
| `ResolverMeaning.ViableInFull` | services/orchestration/semantic/resolver.py:160 | The viable ones are those worth at least 0.18, and stand in front |
| `ResolverGate.SelectedIsClearWinner` | services/orchestration/semantic/resolver.py:159-229 | With top_k of at least two, whatever the planner answers, a selected metric is valid, not filtered, at or above the threshold, and ahead of every other metric given by the margin |
| `ResolverGate.SelectedExactly` | services/orchestration/semantic/resolver.py:177-229 | With such a winner, it is selected if and only if the planner asks nothing, names no other candidate, and is sure enough if it names one |
| `ResolverGate.SelectsOnlyWinnersExactly` | services/orchestration/semantic/resolver.py:159-160 | The guarantee holds for top_k of two or more and for zero, and for no other value: ties go unseen with one, and with negative values |
| `Embedding.HashEmbed` | services/embedding/client.py:74-87 | Accumulation in place, then normalisation, give the specified vector |
| `EmbeddingMeaning.CoordinatesInFull` | services/embedding/client.py:74-82 | Each coordinate is the sum of (2 b - 255) / 255 over the bytes b whose word falls on it |
| `EmbeddingMeaning.NoZeroWeight` | services/embedding/client.py:79-82 | No byte has weight zero, so the weights kept for that case are never used |
| `EmbeddingMeaning.NormalisedInFull` | services/embedding/client.py:84-87 | Normalising divides every coordinate by the length of the vector |
| `Embedding.ZeroOrUnit` | services/embedding/client.py:84-87 | The vector is the zero vector exactly for a zero accumulation and has length one otherwise |
| `Embedding.CauchySchwarz` | services/orchestration/semantic/resolver.py:570-576 | The square of an inner product is at most the product of the two squared lengths, for lists of any lengths |
| `Embedding.CosineBounds` | services/orchestration/semantic/resolver.py:570-576 | The cosine lies between -1 and 1 |
| `EmbeddingMeaning.CosineInFull` | services/orchestration/semantic/resolver.py:570-576 | The cosine times both lengths is the inner product, and it is 0 when a vector has no length |
| `Embedding.ScoresInUnit` | services/orchestration/semantic/resolver.py:145-146 | Vector, merged and reranked scores lie between 0 and 1, for any sum of boosts |
| `EmbeddingMeaning.ScoresInFull` | services/orchestration/semantic/resolver.py:145-146 | 58 parts of the lexical and 42 of the vector score; boosts kept between 0 and 1; a negative cosine counts as 0 |
| `Embedding.SameTextScoresOne` | services/orchestration/semantic/resolver.py:563-567 | A text compared with itself scores one, unless its vector is zero |
| `Worksheet.ExcelColumnName` | services/orchestration/exporting/service.py:366-372 | The loop ends and returns the name of the column; the empty text for numbers below one |
| `Worksheet.NumberOfName` | services/orchestration/exporting/service.py:366-372 | Reading letters as digits 1 to 26 in base 26 gives back every column number |
| `Worksheet.NameOfNumber` | services/orchestration/exporting/service.py:366-372 | Every run of capital letters is the name of its number, so no name is skipped |
| `Worksheet.NamesFollow` | services/orchestration/exporting/service.py:366-372 | Columns 1 to 26 are A to Z, and column 26 a + b is the name of a with the letter b behind |
| `Worksheet.ReadsBack` | services/orchestration/exporting/service.py:345 | A cell reference reads back as its column and row |
| `Worksheet.RefsApart` | services/orchestration/exporting/service.py:339-348 | References of different cells differ, for a worksheet of any size |
| `Worksheet.RowCells` | services/orchestration/exporting/service.py:342-347 | The inner loop gives the cells of a row, column by column, each with its own reference |
| `Worksheet.WorksheetCells` | services/orchestration/exporting/service.py:339-348 | The two loops give every cell of header and data rows, row by row, a reference that reads as its own column and row, with the value of its own header and row |
| `PdfText.EscapesOnce` | services/orchestration/exporting/service.py:376-379 | The three replacements in turn equal escaping each character once |
| `PdfText.EscapedReads` | services/orchestration/exporting/service.py:376-380 | A reader of literal strings, with nesting, octal and line-end rules, reads every escaped line as that line with its ends of line normalised |
| `PdfText.EscapedReadsBack` | services/orchestration/exporting/service.py:376-380 | It reads back as the line itself if and only if the line holds no carriage return |
| `PdfText.ReturnIsLost` | services/orchestration/exporting/service.py:376-380 | The shortest line that does not: a lone carriage return is read as a line feed |
| `PdfText.PageShowsLines` | services/orchestration/exporting/service.py:380 | The content stream's literal strings are the lines, with a question mark for each character outside Latin-1 and ends of line normalised, for any lines |
| `PdfText.PageShowsExactly` | services/orchestration/exporting/service.py:380 | They are exactly the Latin-1 lines if and only if no line holds a carriage return |
| `Pdf.WriteFile` | services/orchestration/exporting/service.py:388-405 | The writing loops produce header, objects, table and trailer as specified |
| `Pdf.BuildSimplePdf` | services/orchestration/exporting/service.py:375-405 | The export is that file for the escaped lines |
| `Pdf.TableIsExact` | services/orchestration/exporting/service.py:390-398 | Below ten to the tenth bytes every table entry is 20 bytes long, stands in its place and gives the offset of its object |
| `Pdf.EntryWidth` | services/orchestration/exporting/service.py:397-398 | An entry is 20 bytes long exactly for offsets below ten to the tenth |
| `Pdf.ObjectInFile` | services/orchestration/exporting/service.py:391-393 | Every object stands in the file where its offset says |
| `Pdf.StartXrefIsExact` | services/orchestration/exporting/service.py:394-404 | The file ends with the place of the table, and the table begins there |
| `Pdf.ExportReadsBack` | services/orchestration/exporting/service.py:380-405 | The stream begins right after its keyword, is followed by endstream after exactly /Length bytes, and shows the lines, with ends of line normalised |
| `Pdf.FileInFull` | services/orchestration/exporting/service.py:388-405 | The file part by part: body, table head, free entry, entries, trailer with size and start |
| `Pdf.FixedObjectsInFull` | services/orchestration/exporting/service.py:381-386 | Catalog, pages, page and font, as they stand in every export |
| `Pdf.StreamObjectInFull` | services/orchestration/exporting/service.py:380-386 | The fifth object: the stream with its length in bytes |
| `Pdf.ExportStarts` | services/orchestration/exporting/service.py:388 | Every export starts with the header of version 1.4 |
| `PdfText.Latin1InFull` | services/orchestration/exporting/service.py:380 | Characters up to 255 are kept, and every other becomes a question mark |
| `Masking.ApplyColumnSecurity` | services/orchestration/security/column_masker.py:49-65 | The nested loops return the specified rows and audit records |
| `MaskedRows.SecuredInFull` | services/orchestration/security/column_masker.py:49-65 | Below clearance 3 secret cells are missing, below 2 confidential and below 1 internal ones show three stars, all others are themselves, in order; the audit tells of just the missing and the starred |
| `MaskedRows.AuditInFull` | services/orchestration/security/column_masker.py:49-65 | The audit records of all rows follow one another row by row |
| `Masking.SecuredExactly` | services/orchestration/security/column_masker.py:49-65 | Two results get equal secured rows if and only if they agree on everything the user may see: the columns that are not excluded, and the values at or below the clearance |
| `Masking.FinalRowsHideTheRest` | services/orchestration/routes/query.py:283-320 | Results that agree on that give the same final rows and the same mode, inline and pending, with declared and inferred columns, for any masker |
| `Masking.InferredMissesNothing` | services/orchestration/routes/query.py:274-280 | With inferred columns every text cell goes through masking or becomes pending, exactly once, and no other cell changes |
| `MaskedRows.DeclaredInFull` | services/orchestration/routes/query.py:283-320 | With declared columns: a cell without text, or of a column not declared, is as secured; a declared text is `<PII_SCAN_PENDING>` above 10,000 cells, and otherwise itself from clearance 3 on and masked below, once for each time its column is listed |
| `MaskedRows.InferredInFull` | services/orchestration/routes/query.py:274-320 | With inferred columns: every text is treated so, once, the cells counted being those of the columns that hold text in some secured row |
| `MaskedRows.ModeInFull` | services/orchestration/security/pii_masker.py:121-123 | Pending exactly above 10,000 cells |
| `Masking.TextColumnsExactly` | services/orchestration/routes/query.py:274-280 | The inferred columns are exactly those in which some row holds text, in increasing order |
| `Masking.OverwriteText` | services/orchestration/security/pii_masker.py:126-132 | Masking in place, column after column, equals the specified row |
| `Masking.ApplyRuntimeSecurity` | services/orchestration/routes/query.py:283-320 | The pipeline returns the specified rows; pending exactly above 10,000 cells |
| `Schedules.ActiveExactly` | services/orchestration/exporting/schedules.py:66-114 | A schedule comes out active if and only if the order is the owner's own, to the own domain, and, from tier 2 on, covered by an approved request with an equal fingerprint |
| `ScheduleMeaning.RefusedInFull` | services/orchestration/exporting/schedules.py:66-83 | Unknown result, foreign result, address without an at sign or of another domain: the error of each, in this order, and no request changes |
| `ScheduleMeaning.OrderedInFull` | services/orchestration/exporting/schedules.py:84-114 | An accepted order makes a schedule with each field as ordered and the next run 86,400, 604,800 or 2,592,000 seconds on; a sensitive one without approval waits for a request with each field as ordered |
| `ScheduleMeaning.ApprovedInFull` | services/orchestration/exporting/schedules.py:139-177 | With an approval named: not found, foreign, other fingerprint or not approved, and active otherwise |
| `ScheduleMeaning.DomainOnly` | services/orchestration/exporting/schedules.py:267-273 | The domain is what stands behind the last at sign, the whole text without one |
| `ScheduleMeaning.PeriodsInSeconds` | services/orchestration/exporting/schedules.py:275-281 | One, seven and thirty days in seconds |
| `Schedules.ApprovedOrderSucceeds` | services/orchestration/exporting/schedules.py:139-177 | Ordering a sensitive report, having its request approved and ordering the same report again with that request makes it active |
| `Schedules.ApprovalIsForOneReport` | services/orchestration/exporting/schedules.py:150-177 | However a request fares, no order for another source, cadence, format, recipient, user, department or tier is accepted with it, and none before it is approved |
| `Schedules.FingerprintPinsReport` | services/orchestration/approval/workflow.py:45-58 | Orders with equal fingerprints ask for the same report of the same tier |
| `ScheduleRuns.SensitiveWasApproved` | services/orchestration/exporting/schedules.py:84-177 | Over any run, an active schedule of tier 2 or more was made by an order for that very report at a moment when its request was approved with an equal fingerprint |
| `ScheduleRuns.SensitiveReportsWereApproved` | services/orchestration/exporting/schedules.py:119-212 | Over any run, every record in the audit trail, of a report, a delivery or a failure, belongs to exactly one schedule, an active one, and if that is of tier 2 or more it was approved so |
| `Schedules.DeliverMoves` | services/orchestration/exporting/service.py:137-165 | A run produces a report exactly when some try gets that far; the next run moves, to one cadence from now, exactly when the export's own record of some report was persisted, and stays put otherwise, whatever was produced |
| `Schedules.DeliverKeeps` | services/orchestration/exporting/schedules.py:179-212 | A run changes nothing of a schedule but its next run and the notes on the last one, makes one to three tries, and leaves at least one record, all of them about that schedule at that time |
| `ScheduleMeaning.DeliveredInFull` | services/orchestration/exporting/schedules.py:179-212 | A run delivers exactly if in one of three tries nothing raises, in the first such, and notes time, success and no error |
| `ScheduleMeaning.FailedInFull` | services/orchestration/exporting/schedules.py:198-212 | Otherwise it notes time, failure and the error of the third try, appends a record with that error last, and raises when writing that record does |
| `ScheduleMeaning.RecordsSigned` | services/orchestration/exporting/schedules.py:214-265 | Every record of a run names the report, its owner, the schedule, its cadence and the time of the run |
| `Schedules.OneOutcomeExactly` | services/orchestration/exporting/schedules.py:179-230 | A due run leaves exactly one delivery record if and only if no try gets a report registered, or the delivery record of the first one registered is persisted |
| `Schedules.OneReportExactly` | services/orchestration/exporting/schedules.py:183-205 | A due run produces at most one report if and only if the first try that produces one ends the run or no later try produces one |
| `Schedules.HonestExactly` | services/orchestration/exporting/schedules.py:179-212 | A due run leaves records that are true to what happened, one report and its delivery or no report and one failure, if and only if no try produces a report or both records of the first one produced are persisted |
| `Schedules.OutageProduces` | services/orchestration/audit/read_model.py:79-81 | While the audit database fails, a due run completes the export three times, leaves one delivery record, which says that it failed, leaves the next run where it is, and raises |
| `Schedules.OutageRepeats` | services/orchestration/exporting/schedules.py:119-128 | So the schedule is due again at once, and two runs at one moment complete the same export six times |
| `ScheduleRuns.DeliveriesKeepDistance` | services/orchestration/exporting/schedules.py:119-212 | Over any run and any clock values, delivery records of one schedule left by different runs are at least one cadence apart, and every record of a schedule, reports and failures included, is at least one cadence after its creation |
| `ScheduleRuns.ReportsKeepDistance` | services/orchestration/exporting/schedules.py:119-212 | Over any run in which each run that produces a report also persists the export's own record of one, reports of one schedule produced by different runs are at least one cadence apart |
| `ScheduleRuns.DistanceExactly` | services/orchestration/exporting/schedules.py:183-205 | For an environment of failures: in all runs that see it, reports of one schedule produced by different runs are a cadence apart, if and only if each run that produces a report persists the export's own record of one |
| `ScheduleRuns.SteadyReportsApart` | services/orchestration/exporting/schedules.py:119-212 | Over any run in steady environments, any two reports of one schedule are at least one cadence apart, even within a run, and so are any two deliveries |
| `ScheduleRuns.AlwaysDistanceExactly` | services/orchestration/exporting/schedules.py:183-205 | In all runs that see an environment any two reports of one schedule are a cadence apart if and only if it is steady: the first try that produces a report has its own record persisted and then ends the run or is the last to produce one |
| `ScheduleRuns.PersistedReportsApart` | services/orchestration/exporting/schedules.py:119-212 | While the audit database raises nothing, any two reports of one schedule are at least one cadence apart, whatever fails before a report is produced |
| `ScheduleRuns.OneRecordPerDueRun` | services/orchestration/exporting/schedules.py:119-128 | A run that does not raise leaves no record for a schedule that is not due and at least one delivery record for each that is, exactly one under the condition of `Schedules.OneOutcomeExactly` |
| `ScheduleRuns.RunWritesDueRecords` | services/orchestration/exporting/schedules.py:119-128 | A run appends the records of the due schedules in order, up to and including the first whose delivery raises, and raises exactly if there is one |
| `ScheduleMeaning.RunInFull` | services/orchestration/exporting/schedules.py:119-128 | A run delivers, in order, the active schedules whose next run has come, up to the first whose delivery raises, touches no other, and notifies once of each delivered, or of none when one raised |
| `ScheduleRuns.DeliverRaises` | services/orchestration/exporting/schedules.py:183-212 | A delivery raises exactly when all three tries fail and so does the write of the failure's record |
| `ScheduleService.ScheduledReportService.CreateSchedule` | services/orchestration/exporting/schedules.py:66-114 | Result, stored schedules and approval requests after a creation are those of the specification |
| `ScheduleService.ScheduledReportService.SendReport` | services/orchestration/exporting/service.py:159-165 | A completed export appends its own record before the database write that may raise |
| `ScheduleService.ScheduledReportService.TryOnce` | services/orchestration/exporting/schedules.py:186-191 | One try leaves note, next run, records and error as specified, wherever in it something raises |
| `ScheduleService.ScheduledReportService.DeliverSchedule` | services/orchestration/exporting/schedules.py:179-212 | The retry loop, on the schedule object, leaves object and audit trail as specified |
| `ScheduleService.ScheduledReportService.RunDueSchedules` | services/orchestration/exporting/schedules.py:119-128 | The loop over the schedules leaves the whole state as specified; an error skips the rest and the notifications |
| `ScheduleService.ApprovalStore.Decide` | services/orchestration/approval/workflow.py:89-100 | The state of the request becomes approved or rejected, as decided, and nothing else changes; an unknown id changes nothing |
| `ScheduleService.ApprovalStore.Expire` | services/orchestration/approval/workflow.py:102-110 | Only the state of the request changes, to expired, whatever it was |

## Left out

- HTTP routes, access tokens, language models, Weaviate, Postgres, Redis itself, Oracle, Cerbos: input and output. The
  catalog store is a list of rows and a map of heads.
- React pages and stores; retry, backoff and unmounting in the stream hook. JSON text `null` as an event.
- Recognising a phrase in a query: the model starts from the branch already matched, with what it captured.
- `SELECT`, `GROUP BY`, sort, limit, grain, period comparison, the latest-date branch and derived metrics of a plan;
  one formula serves all metrics of a plan in the code. The time dimension is `PERIOD_DATE`.
- `like` filters are not part of the equivalence: Oracle is given the first value and Cube all of them, and the two
  operators need not agree. What each selects is in `PlanMeaning.SelectedInFull` and `PlanMeaning.CubeKeepsInFull`.
- `date.fromisoformat` is modelled for `YYYY-MM-DD` only.
- `_safe_name` is modelled on ASCII text, without case folding and accents beyond it.
- Cache entries whose JSON is malformed; `ttl`, `ping`, `get_stats` and the forced-refresh counter.
- QueryCache.QueryResultCache.InvalidateUserEntries: the count is bounded from both sides instead of fixed, because
  entries may expire while the method runs; with a clock that stands still the bounds meet.
- The raw-text sentence splitter; chunk_overlap of 0 (the slice `[-0:]` keeps the whole list) or of chunk_size and more
  (the window loop would not move).
- Seeding the glossary, embeddings of versions, diffs and `list_metrics`. A failing catalog write.
- MetricRestarts.RestartsAreInvisible: versions are compared as sets, because rows written in the same instant may
  come back in another order.
- The lexical score and the list of boosts; both appear as arbitrary numbers, the lexical one between 0 and 1.
- XML escaping and zip packaging of the spreadsheet, CSV and JSON exports, export job states.
- Fusion.AheadComesFirst: the item that is behind must stand at most once in each list.
- The time stamp of an export's audit record, which is the wall clock's; records carry the time of the run instead.
- Conversion errors of a sensitivity map and of rows that are not dictionaries; the id of a pending scan.
- Listing schedules and notifications; pausing. Nothing in the code makes a waiting schedule active later.
- Expiry of approval requests by time is an arbitrary step here.
- Static stubs: trend, anomaly, forecast, explanations, cross-domain answers.
