# Rustroid Sentinel, verified

A Dafny model of the stateful parts of Rustroid Sentinel, with proofs about whole runs of them. Check it with `dafny verify dfyconfig.toml`.

| file | what it models |
|---|---|
| `sql.dfy`, `catalog_types.dfy`, `catalog_text.dfy`, `catalog_builder.dfy`, `catalog.dfy`, `catalog_filters.dfy` | three-valued SQL tests, NULL, ORDER BY, ILIKE, the grammar by which a query text is read, and the text that `push_order_by`, `push_keyset_predicate` and `list` assemble |
| `cursor.dfy`, `catalog_handler.dfy`, `catalog_request.dfy` | base64url cursor tokens, `decode_cursor`, `next_cursor`, `list_params`, one listing request |
| `keyset_paging.dfy`, `catalog_walk.dfy` | walks through all pages, over a table that stays or that changes between the fetches |
| `page_links.dfy` | the comma-joined history behind Prev and Next |
| `repository.dfy`, `load.dfy`, `load_report.dfy`, `announcements.dfy`, `etl_events.dfy` | the batch upsert transaction, the 1000-record loop with crashes and reruns, its counters and hazard events, and the log of loads |
| `lookups.dfy`, `orbits.dfy`, `sentry.dfy` | the refill pool with its failure breaker, and the chunked runner |
| `admission.dfy`, `broadcast.dfy` | the lock-free subscriber cap and one subscriber's broadcast cursor |
| `numerals.dfy`, `debug_format.dfy`, `cache_keys.dfy`, `cache.dfy`, `cached_listing.dfy` | Debug text of cache keys, the TTL stores over whole runs, and the catalog listing and its walks behind the store |
| `witnesses.dfy` | a codec and printers that meet what the model asks of libraries |
| `limits.dfy`, `alerts.dfy`, `retention.dfy` | LIMIT with ties, alert dispatch over faulty runs and prunes, pruning |
| `extract.dfy`, `commas.dfy`, `display_name.dfy` | date batches, thousands separators, the label of a load |
| `prelude.dfy` | shared sequence and arithmetic facts |

How to read it:

- Code that changes state step by step is a class or a loop (`QueryBuilder`, `Database`, `EventLog`, `OrbitStore`, `SubscriberCount`, `Subscriber`, `Store`, `AlertService`, `RetentionRepository`). Each such method is proved equal to a function of the old state, and the properties are proved of that function over every run.
- Whatever the program does not decide is left open. Completion order and lookup outcomes are arbitrary choices inside the runners. Failing statements, killed processes, ties cut by LIMIT, interleavings and schedules are quantified inputs.
- Libraries appear as contracts only. `JsonCodec.Exact` is serde_json reading back what it wrote. `Printers.Faithful` says that dates, floats and UUIDs print as distinct words. `witnesses.dfy` shows that both can be met. `printable` is the standard library's character table. Version 5 UUIDs are injective in what they are derived from. A single SQL statement or a transaction takes effect wholly or not at all. The broadcast and watch channels follow tokio's documentation.

Properties that do not hold as one might expect are proved with the exact condition under which they do:

- `push_not_null_keyset` opens a bracket it never closes, so no listing with a text or diameter cursor is a statement (`CatalogBuilder.NotNullSpoils`, `Catalog.StatementIsSpoiled`). A listing is answered if and only if it has no cursor or a date, Torino or Palermo cursor (`Catalog.List`). Sorted by name or diameter, the server's own `next_cursor` is answered with 500 (`CatalogHandler.OwnTokenIsServedIff`), and such a catalog can be read to its end if and only if it fits on one page (`CatalogWalk.CatalogIsReadIff`).
- `decode_cursor` compares a cursor's sort key and direction but not the type of its value. A forged cursor is accepted, and answered with a page if its value is a date, Torino or Palermo value (`CatalogHandler.ForgedCursorIsAccepted`). The page continues the requested order if and only if the type matches, or the page is empty on every table and the order has a last place (`CatalogHandler.PredicateResumesTheOrderIff`). Cursors the server issues always match.
- A file is marked completed if and only if exactly one start was recorded since its row was last absent, and that run loaded and reported it (`EtlEvents.CompletedIff`). A second start resets the row but keeps the old id, so nothing can complete the file until its row is pruned (`EtlEvents.SecondStartLastsUntilPruned`, `EtlEvents.PrunedFileCompletesAgain`). Meanwhile it is loaded again by every run; `Load.RepeatChangesNothing` shows that this does not change the tables.
- The name filter of the catalog is the substring match its documentation promises if and only if the name has no `%`, `_` or backslash (`CatalogFilters.NameFilterIsSubstringIff`).
- A cached answer can be older than an invalidation when its query was under way at that moment (`Cache.InvalidationCanBeOutrun`), and only then (`Cache.AnswersAreTheRepositorys`).
- An event that cannot be serialized is skipped without a `lagged` notice, so the reported gaps are exact up to such events (`Broadcast.GapsAreReported`).
- `new_asteroid_ids` of a load holds the ids of the last partial batch only. That is all its new ids if and only if every asteroid of its full batches was known already (`Load.NewIdsCompleteIff`); a file of 1000 new asteroids reports none (`Load.FullBatchLosesItsIds`). The four counters are sums over all batches.
- The hazard events of a load are said to be gathered from all batches and published, but the line loop never adds them up: what it reports is complete if and only if the file brought no Critical or High approach (`Announcements.HazardEventsReportedIff`). Each batch announces its new rows correctly as long as it offers every approach with one class (`Announcements.SilentIff`, `Announcements.NewRowIsAnnouncedIff`).
- A batch size of 0 makes the extraction loop run for ever (`Extract.LoopEndsIff`). A page limit of 0 ends a walk at once, and an alert limit of 0 never clears anything.
- The weekly report's cache key is sound exactly while all callers ask for the trailing week (`Cache.WeeklyKeySoundIff`).
- A file name is read back exactly for years 0 to 9999. A signed year swallows the month and the day (`DisplayName.CompactReadsIff`).

## Model

| member | source | states |
|---|---|---|
| `CatalogTypes.BeforeTotal` | src/database/catalog.rs:56-81 | the reading order (values by direction, rows without a value last in both directions, then `id` by direction) is irreflexive, total and antisymmetric |
| `CatalogTypes.BeforeTransitive` | src/database/catalog.rs:56-81 | the reading order is transitive, so with totality it is a strict total order for all five sort keys |
| `Catalog.PageIsInOrder` | src/database/catalog.rs:56-81 | the rows of any page are in the asked order, seen in the columns themselves: values go up or down as asked, rows without a value come last, ids break ties |
| `Sql.TextLessIff` | src/database/catalog.rs:63-81 | names are ordered by their first difference, a name before its continuations |
| `CatalogBuilder.QueryBuilder.PushOrderBy` | src/database/catalog.rs:63-81 | the appended words are, before a LIMIT, an ORDER BY whose two terms read any two rows in that order, for every sort key and direction |
| `CatalogBuilder.QueryBuilder.PushNullableKeyset` | src/database/catalog.rs:133-161 | the appended words, put after any condition and before anything, narrow it to exactly the rows after the position, with a NULL on either side |
| `CatalogBuilder.QueryBuilder.PushNotNullKeyset` | src/database/catalog.rs:164-184 | the appended words open two brackets and close one: no text with its own brackets balanced can be put around them to make a statement |
| `CatalogBuilder.QueryBuilder.PushKeysetPredicate` | src/database/catalog.rs:85-127 | for a date, Torino or Palermo cursor the appended words narrow any condition to exactly the rows strictly after the cursor (TRUE, not UNKNOWN); for a text or diameter cursor they spoil every statement |
| `CatalogBuilder.KeysetTest` | src/database/catalog.rs:133-161 | the comparison with its tie-break and `OR ... IS NULL`, evaluated under three-valued logic, is the reading order |
| `CatalogText.StatementIsBalanced` | src/database/catalog.rs:133-184 | a text that is read as a statement closes every bracket it opens, under a grammar in which AND binds tighter than OR |
| `CatalogBuilder.NotNullSpoils` | src/database/catalog.rs:164-184 | the text for `name` and `estimated_diameter_avg_km` leaves exactly one bracket open, for every direction, value and id |
| `CatalogBuilder.QueryBuilder.PushFilters` | src/database/catalog.rs:219-277 | pushed filter conjuncts narrow any condition to exactly the rows on which every filter is TRUE |
| `CatalogFilters.PushFilters` | src/database/catalog.rs:233-277 | the chain of request parameters becomes filters that keep exactly the rows the parameters ask for: a bound on a missing value is not met, and dates ask for one approach within them |
| `CatalogFilters.WithinIff` | src/database/catalog.rs:244-256 | the two dates ask for one approach between them, not for one on each side |
| `CatalogFilters.SinceIffLatest` | src/database/catalog.rs:244-256 | an asteroid has an approach on or after a day exactly if its latest one is |
| `CatalogFilters.ListCatalog` | src/database/catalog.rs:201-301 | for any request parameters the listing is the page of the matching rows if there is no cursor or a date, Torino or Palermo cursor, and a query error if there is a text or diameter cursor or the database does not answer |
| `CatalogFilters.NameFilterIsSubstringIff` | src/database/catalog.rs:32-33 | the name filter is the case-insensitive substring match it is documented as, for all texts, if and only if the name has no `%`, `_` or backslash |
| `CatalogFilters.PlainNameIsSubstring` | src/database/catalog.rs:233-236 | for such a name the ILIKE pattern matches exactly the texts that contain it |
| `Catalog.List` | src/database/catalog.rs:201-301 | for any table with unique ids, the assembled text is read and run if and only if there is no cursor or its value is a date, Torino or Palermo value; then, fetched with `limit + 1` and truncated, it returns the first `limit` rows that remain of the filtered, ordered catalog after the cursor, and `has_more` exactly when more remain |
| `Catalog.StatementMeans` | src/database/catalog.rs:232-293 | the whole pushed text is read as one statement whose WHERE keeps exactly the rows that pass the filters and lie after the cursor, whose ORDER BY is the reading order, and whose limit is one more than asked |
| `Catalog.StatementIsSpoiled` | src/database/catalog.rs:164-184 | with a text or diameter cursor the whole pushed text is no statement, whatever the filters, sort, direction and limit |
| `Catalog.SortIsTheOnlyOrder` | src/database/catalog.rs:63-81 | ORDER BY leaves Postgres no freedom: any ordered arrangement of the same rows is the one the model computes |
| `Catalog.SelectIsRemaining` | src/database/catalog.rs:201-301 | filtering by the keyset before sorting gives the same rows as cutting the sorted catalog after the cursor |
| `Cursor.DecodeInvertsEncode` | src/api/cursor.rs:63-78 | unpadded base64url decodes what it encoded, for every byte sequence |
| `Cursor.DecodeAcceptsOnlyEncodings` | src/api/cursor.rs:75-78 | an accepted token is the one encoding of its bytes: no second spelling, no stray trailing bits |
| `Cursor.GroupIsTheNumber` | src/api/cursor.rs:63-66 | four characters are the base-64 digits of the number whose base-256 digits the three bytes are |
| `Cursor.CursorRoundTrip` | src/api/cursor.rs:63-78 | decoding an encoded cursor returns that cursor |
| `Cursor.EncodeInjective` | src/api/cursor.rs:63-66 | two cursors with the same token are the same cursor |
| `Cursor.AcceptedTokensAreListSafe` | src/api/cursor.rs:75-78 | a token that decodes is non-empty, has no comma and is not `~`, for any codec that reads nothing from an empty document |
| `CatalogHandler.CatalogList` | src/api/handlers/catalog.rs:239-262 | the handler answers 400 exactly for a token that does not decode to a cursor of the requested sort and direction, 500 exactly when the query cannot be run, and otherwise the page and its continuation token |
| `CatalogHandler.RefusedIff` | src/api/handlers/catalog.rs:38-53 | a request is refused with 400 exactly if it carries a token that does not decode to a cursor of its own sort and direction; one without a token never is |
| `CatalogHandler.GarbageIsRefused` | src/api/handlers/catalog.rs:30-53 | a token with any character outside the base64url alphabet is refused, whatever the database and the codec |
| `CatalogHandler.AnsweredFrom` | src/api/handlers/catalog.rs:239-262 | an answered request is answered with the start of the listing if it carried no token, and otherwise with what follows the cursor its token decodes to |
| `CatalogHandler.CursorForMarksTheRow` | src/api/handlers/catalog.rs:209-234 | the continuation cursor has its sort key's own value type and stands at its row's place in the listing |
| `CatalogHandler.TokenAcceptedIffSameSort` | src/api/handlers/catalog.rs:38-53 | the token of any cursor whatever is accepted exactly by requests with its sort and direction |
| `CatalogHandler.ForgedCursorIsAccepted` | src/api/handlers/catalog.rs:38-53 | a cursor whose value has another type than the sort's is accepted by `decode_cursor`; a date, Torino or Palermo value is answered with a page, which continues the requested order from a possible row if and only if the page is empty and the order has a last place; a text or diameter value is answered with 500 |
| `CatalogHandler.KeysetMeansAfterInOrder` | src/database/catalog.rs:63-127 | `push_keyset_predicate` and `push_order_by` agree, as read from the emitted text: with a cursor of the sort's own type the text is a statement if and only if the sort column may be NULL, and then the kept rows are those that pass the filters and follow the cursor's row in the emitted order |
| `CatalogHandler.PredicateResumesTheOrderIff` | src/api/handlers/catalog.rs:38-53 | for any cursor whatever, forged ones included: the query runs and resumes the requested order after some possible row if and only if its value is a date, Torino or Palermo value, and either has the type of its sort column, which `decode_cursor` does not check, or the cursor admits no row at all and the order has a last place |
| `CatalogHandler.AdmitsNothingIff` | src/database/catalog.rs:85-184 | the listing from a cursor is answered, and empty on every table, exactly if the cursor's value is NULL and no UUID comes after its id |
| `CatalogHandler.OwnTokenIsServedIff` | src/api/handlers/catalog.rs:209-262 | a token that `next_cursor` returned is served, whatever the table has become, if and only if the sort is neither `name` nor `diameter`; in those two orders it is answered with 500 |
| `CatalogRequest.PagesOfOneRequest` | src/api/handlers/catalog.rs:55-73 | the parameters of every page of a request are its filters, sort and limit of 50 with only the cursor changed |
| `CatalogRequest.RowIsListedIff` | src/api/handlers/catalog.rs:55-73 | from the query string to the rows: a row is in the listing a request pages through if and only if it is in the table and meets every field of the request, empty texts asking nothing |
| `CatalogRequest.FirstPageOfRequest` | src/api/handlers/catalog.rs:239-262 | a first page holds fifty rows at most, all asked for, and all that are asked for if it names no next page |
| `CatalogRequest.EmptyTextFilters` | src/api/handlers/catalog.rs:55-73 | an empty name would filter nothing, and an empty class would keep only rows whose class is the empty text: what `list_params` drops |
| `KeysetPaging.AtMostOnce` | src/database/catalog.rs:201-301 | keyset paging over changing ordered lists, each page starting after the last row of the one before, never shows a staying place twice |
| `KeysetPaging.Reached` | src/database/catalog.rs:201-301 | such paging reaches every staying place before it ends |
| `CatalogWalk.NextTokenIsServedIff` | src/api/handlers/catalog.rs:209-234 | from any unfinished walk the next request is served, whatever happened to the table in between, if and only if the sort is neither `name` nor `diameter`; in those orders it is answered with 500 |
| `CatalogWalk.StayingRowShownAtMostOnce` | src/database/catalog.rs:201-301 | over tables that change arbitrarily between fetches, a row that stays with an unchanged sort key is on at most one page of a walk |
| `CatalogWalk.PageHasNoRepeats` | src/database/catalog.rs:287-300 | no page holds a row twice |
| `CatalogWalk.StayingRowShownExactlyOnce` | src/api/handlers/catalog.rs:209-234 | if such a walk ends, every row that stayed was on exactly one page |
| `CatalogWalk.FixedTableWalk` | src/api/handlers/catalog.rs:209-234 | on a fixed table the pages concatenate to a prefix of the filtered catalog in order, and a walk has ended exactly when it has read all of it, which is after max(1, ceil(n / limit)) pages |
| `CatalogWalk.SecondPageNeedsNullable` | src/database/catalog.rs:111-125 | no walk in `name` or `diameter` order has a second page |
| `CatalogWalk.CatalogIsReadIff` | src/api/handlers/catalog.rs:209-262 | by following `next_cursor` on an unchanging table the whole filtered catalog can be read if and only if the sort is neither `name` nor `diameter` or the catalog fits on one page |
| `CatalogWalk.ZeroLimitCoversOnlyAnEmptyCatalog` | src/database/catalog.rs:287-300 | with limit 0 the walk ends at once, and is complete exactly when no row passes the filters |
| `PageLinks.JoinSplit` | src/api/handlers/catalog.rs:153-158 | joining the split history gives back the text, for any text |
| `PageLinks.PrevUndoesNext` | src/api/handlers/catalog.rs:179-205 | from any page, with any history text, Next then Prev is the identical cursor and history, and Prev is offered after Next |
| `PageLinks.NextThenPrevReturns` | src/api/handlers/catalog.rs:146-205 | k times Next and k times Prev return to the starting page |
| `PageLinks.StepKeepsDescription` | src/api/handlers/catalog.rs:146-205 | each click keeps the URL a faithful record of the pages behind |
| `PageLinks.LinksImplementStack` | src/api/handlers/catalog.rs:146-205 | after any series of clicks from the first page the URL tells the current page and the stack behind it, and `has_prev` holds exactly at depth above 0 |
| `Repository.Database.UpsertBatch` | src/database/repository.rs:327-508 | one transaction: both statements or neither, the four counters equal to the growth of the tables, the ids of the new rows, and the hazard events; a connection lost before or after the commit is an error either way |
| `Repository.RunUpsert` | src/database/repository.rs:400-436 | the loop form of the asteroid upsert: its table, its errors, and exactly the inserted rows reported by `xmax = 0` |
| `Repository.RunInsert` | src/database/repository.rs:439-468 | the loop form of the approach insert: its table, its errors, and the ids it returns, one for each row the table grew by and none twice |
| `Repository.Announce` | src/database/repository.rs:482-498 | looking the returned ids up in the map of offers, and taking each out, gives one event for each new id whose last offer is Critical or High |
| `LoadReport.BatchCountsMean` | src/database/repository.rs:470-507 | the four counters of a committed batch: the asteroids and approaches that are new in the tables, and the rest of the records and of the approaches they offer |
| `LoadReport.BatchCountsAgree` | src/database/repository.rs:470-507 | there are as many new ids as asteroids inserted and as returned ids approaches inserted, and what counts as updated are the batch's asteroids that were there before |
| `LoadReport.NewIdsAreOfNewRows` | src/database/repository.rs:472-477 | every id reported as new is the id of an asteroid that was not in the table |
| `LoadReport.AsteroidRowAfter` | src/database/repository.rs:400-436 | the row of each record of a committed batch: the record's facts; id, creation time and risk-list columns as they were, or for a new row the record's own id and time and no columns |
| `LoadReport.LostConnection` | src/database/repository.rs:396-470 | a connection lost before the commit leaves the tables, one lost after it leaves what the batch committed, and both are the same error |
| `LoadReport.CommittedBatchKeepsConstraints` | migrations/001_create_tables.sql:2-35 | whatever a batch holds, if it commits the primary keys are still unique and every approach has its asteroid |
| `Repository.CommittedBatchMeans` | src/database/repository.rs:327-508 | a committed batch is last-writer-wins on asteroids (keeping id and creation time) and first-writer-wins on approaches |
| `Repository.AbsorbConcat` | src/database/repository.rs:327-508 | absorbing two lists of records in turn is absorbing their concatenation |
| `Repository.AbsorbIdempotent` | src/database/repository.rs:327-508 | absorbing the same records again changes nothing |
| `Repository.CoveredBatchCommits` | src/database/repository.rs:327-508 | a batch whose natural keys are all in the tables cannot fail, unless an asteroid occurs in it twice |
| `Repository.WellFormedBatchCommits` | src/database/repository.rs:327-508 | on tables whose ids are derived from natural keys and whose approaches have asteroids, a batch of such records commits if and only if no `neo_reference_id` occurs twice in it, and the tables stay so |
| `Load.StreamAndProcessFile` | src/cli/load.rs:367-431 | the line loop with its 1000-record batches, over a connection that may be lost at any batch, leaves the tables and returns the counters, error and new ids that the specification gives; a file that does not open changes nothing |
| `LoadReport.LoadOkIff` | src/cli/load.rs:367-431 | a load succeeds exactly if the file can be read to its end, holds a record, every batch commits, and the connection lasts |
| `LoadReport.LoadCountsMean` | src/cli/load.rs:395-430 | the counters a successful load returns: the asteroids and approaches by which the tables grew, and the rest of the file's records and of the approaches they offer |
| `LoadReport.FaultLeaves` | src/cli/load.rs:395-423 | a lost connection leaves the batches before it, and the one it struck only if its commit had gone through |
| `LoadReport.RecordsAreTheParsedLines` | src/cli/load.rs:380-410 | the records of a readable file are its parsed lines in order; blank and malformed lines count for nothing |
| `LoadReport.UnreadableFileKeepsFullBatches` | src/cli/load.rs:380-410 | an unreadable line fails the load, keeps the full batches of 1000 before it and loses the batch being filled |
| `Load.RunMeans` | src/cli/load.rs:367-431 | a run that fails nowhere leaves the tables as if all records had been absorbed at once |
| `Load.RerunEqualsCleanRun` | src/cli/load.rs:367-431 | a crash after any number of committed batches followed by a full rerun leaves exactly the tables of one clean run |
| `Load.RerunAfterCrashes` | src/cli/load.rs:367-431 | so do any number of crashes at any points |
| `Load.RerunAfterFault` | src/cli/load.rs:367-431 | so does a connection lost at any batch, on either side of its commit |
| `Load.NewIdsCompleteIff` | src/cli/load.rs:412-423 | the new ids a successful load reports are all its new ids if and only if every asteroid of its full batches was in the catalog already |
| `Load.ShortFileReportsAllNewIds` | src/cli/load.rs:412-423 | a file of fewer than 1000 records loses none |
| `Load.FullBatchLosesItsIds` | src/cli/load.rs:395-406 | a file of exactly 1000 new asteroids inserts them all and reports none |
| `Announcements.EventIsAboutANewRow` | src/database/repository.rs:389-498 | each hazard event of a batch is about a row this batch inserted, with the class offered last under its id |
| `Announcements.NewRowIsAnnouncedIff` | src/database/repository.rs:389-498 | a new row is announced with a class if and only if that class is Critical or High and is the one the batch offered last under its id |
| `Announcements.LastClassSpeaks` | src/database/repository.rs:389-498 | an approach offered as Low and again as High is stored as Low and announced as High |
| `Announcements.SilentIff` | src/database/repository.rs:482-498 | a batch with one class per approach announces nothing exactly if it inserts no Critical or High approach |
| `Announcements.HazardEventsReportedIff` | src/cli/load.rs:395-431 | the hazard events a successful load reports for publishing are those its batches announced if and only if the file brought no Critical or High approach, as long as no batch offers one approach with two classes: the line loop never adds events up |
| `Load.RepeatChangesNothing` | src/cli/load.rs:367-431 | loading the same batches again commits and changes nothing |
| `Load.TotalsAreGrowth` | src/cli/load.rs:395-423 | the four summed counters of a run are the growth of the tables over the whole run |
| `Load.BatchingDoesNotShow` | src/cli/load.rs:395-423 | two ways of batching the same records give the same tables and the same four totals |
| `Load.BatchedLikeOneByOne` | src/cli/load.rs:367-431 | with distinct `neo_reference_id`s, splitting at 1000 gives the same tables and totals as upserting record by record |
| `Load.WellFormedRunCommits` | src/cli/load.rs:367-431 | a run over derived ids commits every batch if and only if no batch repeats a `neo_reference_id`, and keeps the tables consistent |
| `Load.DistinctFileCommits` | src/cli/load.rs:367-431 | a file of distinct, well-formed records commits every batch, for every batch size |
| `EtlEvents.EventLog.RecordEtlEventStart` | src/database/repository.rs:247-270 | the file then has a running row, under the id it had or under the new one if it had none, and the rows of other files are as they were |
| `EtlEvents.EventLog.RecordEtlEventFinish` | src/database/repository.rs:273-321 | only the row with that id changes, and only its status; no row comes or goes |
| `EtlEvents.RunProcessFile` | src/cli/load.rs:252-283 | check, start, stream and finish, with any of the log statements failing and the connection lost at any batch, leave the specified tables and log |
| `EtlEvents.OneRowPerFile` | src/database/repository.rs:255-261 | after any history of plain, forced, failing and killed loads, prunes and other commands, each file has at most one log row |
| `EtlEvents.StepOnFile` | src/cli/load.rs:252-359 | what one run does to the log of one file: a start creates or resets its row, and only the run that created it writes a verdict |
| `EtlEvents.RunLoadsIff` | src/cli/load.rs:252-283 | a run leaves the tables alone if it is unforced, its check succeeds and finds a completed row; otherwise it loads the file |
| `EtlEvents.FirstRunIsRecorded` | src/cli/load.rs:252-359 | the first run of a file leaves its verdict: completed exactly if the file opens, can be read, holds a record and every batch commits |
| `EtlEvents.KilledRun` | src/cli/load.rs:252-283 | a killed run completes no file and leaves the batches it committed |
| `EtlEvents.RowIffStarted` | src/database/repository.rs:247-270 | a file has a row exactly when some run of it recorded a start and its row has not been pruned since |
| `EtlEvents.CompletedIff` | src/cli/load.rs:252-359 | a file is marked completed if and only if exactly one start was recorded since its row was last absent, and that run loaded the file and reported it |
| `EtlEvents.CompletedFileWasLoaded` | src/cli/load.rs:252-347 | a completed row means some run of the file read it whole and committed every batch of it |
| `EtlEvents.SecondStartLastsUntilPruned` | src/database/repository.rs:257-260 | once two runs of a file have recorded a start, the file is not completed before its row is pruned |
| `EtlEvents.AbsentRowCompletes` | src/database/retention.rs:97-110 | a run that finds no row, and loads and reports the file, completes it, however many starts came before |
| `EtlEvents.PrunedFileCompletesAgain` | src/database/retention.rs:97-110 | the history of a load, a forced load, a prune and an unforced load: un-completed after the second, completed after the fourth |
| `EtlEvents.FaultyLoadIsRedone` | src/cli/load.rs:274-283 | a load that loses its connection is recorded as failed, and the next load of the file leaves the tables of one clean run |
| `EtlEvents.OnlyTheCreatorFinishes` | src/database/repository.rs:273-296 | the last statement of a run that did not create the row matches no row |
| `EtlEvents.CompletedFileUntouchedIff` | src/cli/load.rs:262-265 | an unforced load of a completed file changes nothing; the log of a completed file stays as it is exactly when no start is recorded, and a recorded start un-completes it |
| `Lookups.ResolvedIdsAreFlushed` | src/cli/orbits.rs:220-257 | the ids owed an update are exactly those of the lookups that did not fail |
| `Lookups.LastFoundIsTheOutcome` | src/cli/orbits.rs:220-257 | what is written for an id is what its lookup found, or nothing if it learned that there is nothing |
| `Orbits.OrbitStore.UpsertAsteroidOrbits` | src/database/repository.rs:702-780 | one statement stamps every updated row with the current time, or fails and changes nothing |
| `Orbits.ApplyOutcome` | src/cli/orbits.rs:220-257 | the four counters and the buffer after one more join, for found, not found, failed and panicked lookups |
| `Orbits.SpawnNext` | src/cli/orbits.rs:262-275 | dispatches the next candidate if there is one; fails exactly on a stream error |
| `Orbits.RunOrbitChecks` | src/cli/orbits.rs:283-343 | over every completion order and outcome: joins fit a pool of two, flushes are full but the last, and on Ok they concatenate to exactly the non-failed outcomes in join order; the summary counts the joins; the run stops at the first window of five failures with at most one lookup abandoned, or after joining every candidate |
| `Orbits.EachCandidateOnce` | src/cli/orbits.rs:262-334 | no candidate is dispatched twice, and a run with as many joins as candidates joined them all |
| `Orbits.UnionAllListsOnce` | src/database/repository.rs:653-670 | the two branches of the UNION ALL share no id: every candidate is streamed once |
| `Orbits.CandidateIff` | src/database/repository.rs:653-670 | an asteroid without a row is a candidate at every cutoff, one with a row exactly at the cutoffs above its stamp |
| `Orbits.ForcedRecheck` | src/database/repository.rs:645-670 | a cutoff later than the clock makes every asteroid a candidate again; runs never stamp ahead of the clock |
| `Orbits.SummaryMeans` | src/cli/orbits.rs:220-257 | the summary counts the lookups that answered, found something, failed or panicked, and the updates |
| `Orbits.RunWrites` | src/cli/orbits.rs:220-257 | a run that flushed everything wrote for each lookup what it found, or an empty row where there is nothing, and left the row of a failed lookup as it was |
| `Orbits.BreakerIsAWindow` | src/cli/orbits.rs:220-257 | the consecutive-error counter reaches k exactly when the last k joins failed |
| `Orbits.AbortsAtTheFirstWindow` | src/cli/orbits.rs:319-327 | a run has not tripped exactly while no prefix of its joins ends in five failures |
| `Orbits.NextRunIsTheUnresolved` | src/database/repository.rs:653-670 | after an Ok run, the candidates for the same `stale_before` are exactly the earlier ones minus those resolved |
| `Orbits.FailedRunKeepsFlushes` | src/cli/orbits.rs:313-316 | after a failed run exactly the flushed ids have left the candidates, and nothing unresolved is lost |
| `Sentry.ScaleStore.UpdateSentryScales` | src/database/repository.rs:571-605 | one statement stamps the existing rows among the updates, or fails and changes nothing |
| `Sentry.JoinChunk` | src/cli/sentry.rs:193-216 | a chunk is joined in any order and completely, or ends with a panic |
| `Sentry.RunSentryChecks` | src/cli/sentry.rs:180-228 | each lookup is joined once, within its chunk; flushes hold 200 to 204 updates but the last; on Ok they concatenate to the non-failed outcomes in join order; the buffer never holds more than 204 |
| `Sentry.ChunksOfFive` | src/cli/sentry.rs:180-228 | the k-th join belongs to the chunk of five that k falls in |
| `Sentry.SummaryMeans` | src/cli/sentry.rs:180-228 | the summary counts the lookups that found scales and those that failed |
| `Sentry.RunWrites` | src/cli/sentry.rs:180-228 | a run that flushed everything wrote the scales each lookup found, or none, and left the row of a failed lookup and every flag as they were |
| `Sentry.CandidateIff` | src/database/repository.rs:522-537 | only flagged asteroids are candidates: at every cutoff if never checked, and otherwise exactly at the cutoffs above their stamp |
| `Sentry.NextRunIsTheUnresolved` | src/database/repository.rs:522-537 | after an Ok run the candidates left are exactly those whose lookup failed |
| `Admission.StepKeepsInv` | src/api/handlers/hazard_events_sse.rs:27-64 | each step of any client keeps the counter equal to the slots held and within the cap |
| `Admission.InvAlways` | src/api/handlers/hazard_events_sse.rs:27-64 | so does every interleaving of any number of clients |
| `Admission.NoWrapAround` | src/api/handlers/hazard_events_sse.rs:27-64 | in no interleaving does `current + 1` or `fetch_sub` wrap around |
| `Admission.RefusedIffFull` | src/api/handlers/hazard_events_sse.rs:49-52 | a load refuses its client exactly when every slot is held at that load |
| `Admission.RefusalHasAFullMoment` | src/api/handlers/hazard_events_sse.rs:49-52 | every refused client had its own load at a moment when all slots were held |
| `Admission.FailedCasHasACause` | src/api/handlers/hazard_events_sse.rs:53-59 | between a load and its failed compare-exchange another client was admitted or left |
| `Admission.FailuresArePaidFor` | src/api/handlers/hazard_events_sse.rs:48-60 | lock-freedom, counted: a client's compare-exchange fails no more often than other clients are admitted or leave |
| `Admission.SubscriberCount.Admit` | src/api/handlers/hazard_events_sse.rs:48-60 | the retry loop is a run of the interleaving model with any schedule of the others; it terminates, attaches within the cap, and refuses only when every slot is held |
| `Admission.SubscriberCount.Release` | src/api/handlers/hazard_events_sse.rs:27-31 | dropping the guard detaches that client and gives back exactly one slot |
| `Broadcast.Subscriber.Next` | src/api/handlers/hazard_events_sse.rs:69-98 | the `unfold` step with its `continue` computes one poll of the specified stream |
| `Broadcast.AlwaysAccounted` | src/api/handlers/hazard_events_sse.rs:62-98 | after any schedule of publishing, polling, shutting down and closing, each log entry sits right after those before it and shows the event sent at that position |
| `Broadcast.NothingLost` | src/api/handlers/hazard_events_sse.rs:75-95 | delivered + skipped + unencodable + pending equals the events sent since subscribing |
| `Broadcast.SeesOnlyLaterEvents` | src/api/handlers/hazard_events_sse.rs:62-65 | a subscriber is shown only events sent after it subscribed |
| `Broadcast.GapsAreReported` | src/api/handlers/hazard_events_sse.rs:89-92 | the gap between two successive deliveries is exactly the lagged counts reported between them plus the events that could not be encoded |
| `Broadcast.PositionsIncrease` | src/api/handlers/hazard_events_sse.rs:79-88 | delivered positions strictly increase |
| `Broadcast.LaggedIffOverrun` | src/events/mod.rs:25-44 | `lagged` is sent exactly when more than 256 events are waiting, counts exactly the ones lost, and leaves 256 |
| `Broadcast.NextEventIsDelivered` | src/api/handlers/hazard_events_sse.rs:78-95 | within the buffer the next event is delivered, not skipped or held back; a poll is pending exactly when nothing encodable is left and senders remain, and ends the stream exactly when none remain |
| `Broadcast.ShutdownEndsTheStream` | src/api/handlers/hazard_events_sse.rs:73-77 | once shutdown flips the next poll ends the stream and gives back its slot, even with events waiting, and nothing later undoes or repeats that |
| `Broadcast.SlotHeldWhileLive` | src/api/handlers/hazard_events_sse.rs:25-31 | over any schedule, client disconnects included, a slot is held exactly as long as the stream lives |
| `Broadcast.PollAsTurns` | src/api/handlers/hazard_events_sse.rs:72-96 | a poll is some number of loop turns, so what holds over turns holds over polls |
| `DebugFormat.LiteralReads` | src/database/cache.rs:42-80 | a Debug string literal determines its text and where it ends, whatever quotes, escapes and colons it holds |
| `DebugFormat.WriteReads` | src/database/cache.rs:42-80 | a Debug value followed by a separator determines the value and where it ends |
| `DebugFormat.JoinInjective` | src/database/cache.rs:42-80 | two keys with the same number of fields are equal only if all fields are |
| `CacheKeys.ApproachKeyInjective` | src/database/cache.rs:42-54 | equal approach keys mean equal parameters, all eight fields, given only that dates print as distinct words |
| `CacheKeys.CatalogKeyInjective` | src/database/cache.rs:61-80 | equal catalog keys mean equal parameters, cursor and all fifteen fields |
| `Witnesses.DecimalPrintersAreFaithful` | src/database/cache.rs:42-80 | printers as the key lemmas ask for exist |
| `Witnesses.TextCodecIsExact` | src/api/cursor.rs:63-78 | a codec as the cursor and walk lemmas ask for exists: it reads back every cursor it wrote and rejects the empty document |
| `Cache.Store.Begin` | src/database/cache.rs:313-336 | a cached wrapper answers at once only from an entry of that key younger than the TTL, and only when the cache is on |
| `Cache.Store.Finish` | src/database/cache.rs:313-336 | an error or a disabled cache changes no entry, an Ok answers that key from then on, and no other key is touched |
| `Cache.AlwaysSound` | src/database/cache.rs:94-201 | over any run in which requests begin and finish separately, every entry is an Ok answer of the repository to parameters with its key, stored since the last invalidation |
| `Cache.AnswersAreTheRepositorys` | src/database/cache.rs:313-403 | a cached answer is the repository's to these very parameters, stored less than a TTL ago and not before the last invalidation; if no request was under way at an invalidation it was also read after it |
| `Cache.StoredIsServed` | src/database/cache.rs:94-201 | an answer stored during a run is served for its whole TTL and no longer, unless it is replaced, pushed out, or the store is emptied |
| `Cache.GoneIsNotServed` | src/database/cache.rs:183-201 | an entry pushed out or emptied is not served, whatever the clock says |
| `Cache.InvalidationCanBeOutrun` | src/database/cache.rs:183-201 | from any state, a request under way at an invalidation stores and serves afterwards what it read before |
| `Cache.SharedKeyMixesAnswers` | src/database/cache.rs:498-504 | two requests sharing a key can be given each other's answer, so injectivity on what is asked is needed |
| `Cache.WeeklyKeySoundIff` | src/database/cache.rs:481-505 | keying the weekly report by `end_date` is sound if and only if every caller asks for the trailing week |
| `Cache.WeeklyKeySeparatesRefreshes` | src/api/handlers/dashboard.rs:469-475 | what the dashboard asks for on a day is the trailing week, and the key tells its requests apart |
| `Cache.ApproachStoreIsSound` | src/database/cache.rs:313-336 | the approach store's key separates all requests |
| `Cache.CatalogStoreIsSound` | src/database/cache.rs:385-403 | the catalog store's key separates all requests |
| `CachedListing.CachedPageIsAPage` | src/database/cache.rs:385-403 | a cached listing is the page its parameters describe, of the table as it was when read, stored less than a TTL ago; a query that cannot be run is never cached |
| `CachedListing.AnswerWasRead` | src/database/cache.rs:313-336 | whatever ran before, an answer, from the store or from a query under way, is what the repository said to these very parameters at some time until then |
| `CachedListing.CachedPageIsServed` | src/api/handlers/catalog.rs:239-262 | a page that `catalog_list` makes from a cached answer is the page it would have made of the table as it was when the rows were read |
| `CachedListing.CachedPagesAreAWalk` | src/api/handlers/catalog.rs:239-262 | pages fetched one after the other through the cache, each after any run of the store, form a walk over the tables as they were when each was read, so what holds of walks holds of them |
| `Limits.LeadsExists` | src/alert/service.rs:93-94 | `ORDER BY ... LIMIT k` always has an answer, ties cut somewhere |
| `Alerts.AlertService.SendAlerts` | src/alert/service.rs:112-158 | sends, then records what was sent, for every mixture of failed sends, failed inserts and crashes |
| `Alerts.AtMostOneRow` | migrations/002_create_alerts_table.sql:7 | over any history of runs and prunes there is at most one row per approach and channel |
| `Alerts.RecordedNeverPicked` | src/alert/service.rs:73-99 | a recorded approach is never selected again, even after a prune has deleted its row |
| `Alerts.PickedIsAlertable` | src/alert/service.rs:86-94 | over any history, what a run picks exists, is hazardous, is not past, and has no row for the channel |
| `Alerts.SentIsHazardous` | src/alert/service.rs:86-143 | only such approaches are ever sent |
| `Alerts.ResentOnlyIfUnrecorded` | src/alert/service.rs:125-143 | over any history of runs and prunes, two runs both send an approach only if the earlier one did not record it |
| `Alerts.SendsAreAccounted` | src/alert/service.rs:125-143 | over any history of runs and prunes, the sends of an approach are those whose record was lost plus those recorded, of which there is at most one; that row is still there unless the date of its approach has passed |
| `Alerts.FaultlessRun` | src/alert/service.rs:93-94 | a faultless run clears the earliest `limit` approaches due: none left is earlier than one cleared |
| `Alerts.FaultlessRunServesAll` | src/alert/service.rs:67-161 | if no more than `limit` hazardous approaches await an alert, a faultless run sends and records every one of them |
| `Alerts.ClearedIff` | src/alert/service.rs:67-161 | n approaches due are cleared after k faultless runs if and only if k is at least ceil(n / limit); a limit of 0 clears none |
| `Retention.RetentionRepository.Prune` | src/database/retention.rs:83-115 | two deletes without a transaction, either failing, and the counts reported |
| `Retention.FreshAndRecentNest` | src/database/retention.rs:97-110 | the rows kept for being recent and those kept for being fresh are nested, however ties are cut |
| `Retention.PruneLeaves` | src/database/retention.rs:97-110 | exactly max(#fresh, min(n, keep_min)) events remain, no fresh one is deleted, and none changes |
| `Retention.CountMatchesPrune` | src/database/retention.rs:39-115 | the dry run and the deletion report the same numbers for the same cutoffs even if their subqueries cut ties differently |
| `Retention.LaterPruneDeletesNoFewer` | src/database/retention.rs:25-32 | with cutoffs each computed from the clock, a dry run's counts are a lower bound on what a later prune of the same tables deletes |
| `Retention.SecondPruneDeletesNothing` | src/database/retention.rs:83-115 | pruning again with the same cutoffs deletes nothing |
| `Retention.ApproachesPruned` | src/database/retention.rs:91-95 | exactly the approaches before the cutoff go, and exactly their alerts with them |
| `Retention.PrunedByAge` | src/database/retention.rs:25-32 | an approach goes exactly if it lies more than the configured years of 365 days back, an event exactly if it started more than the configured days ago and is not among the most recent |
| `Extract.CutBatches` | src/cli/extract.rs:196-207 | the loop terminates and its batches are the closed form; their number is the preview's |
| `Extract.BatchesTile` | src/cli/extract.rs:196-207 | the batches are numbered from 1, adjacent, start and end with the range, and all but the last have exactly batch_size days |
| `Extract.EachDayOnce` | src/cli/extract.rs:196-207 | a day is in some batch exactly if it is in the range, and never in two |
| `Extract.CountIsCeil` | src/cli/extract.rs:165-173 | the number of batches is `div_ceil` |
| `Extract.LoopEndsIff` | src/cli/extract.rs:199-206 | the loop ends, after some number of turns, exactly when the batch size is not 0 or the range is empty |
| `Extract.AddUp` | src/cli/extract.rs:279-297 | saved, skipped and failed batches add up to all of them |
| `Commas.FormatCommas` | src/alert/discord.rs:59-75 | the reversed loop computes the grouping of the rounded integer |
| `Commas.RoundIsNearest` | src/alert/discord.rs:60 | `round` is to the nearest integer, halves away from zero |
| `Commas.CommasAreReversible` | src/alert/discord.rs:59-75 | deleting the commas gives back the decimal numeral |
| `Commas.FormattedInjective` | src/alert/discord.rs:59-75 | equal texts stand for equal numbers |
| `Commas.FormattedIsGrouped` | src/alert/discord.rs:63-68 | the first group has one to three digits and every other exactly three |
| `DisplayName.CompactReadsIff` | src/api/types.rs:213-218 | a `%Y%m%d` date is read back exactly if and only if its year has four digits |
| `DisplayName.FileNameReadsIff` | src/cli/extract.rs:220-224 | the name extract writes and transform suffixes is parsed, giving back exactly the two dates, if and only if both years have four digits |
| `DisplayName.LabelOfLoadedFile` | src/api/types.rs:202-236 | the label is the capitalised prefix and the range, with one date exactly when the two are equal |
| `DisplayName.LabelParts` | src/api/types.rs:222-235 | a label is nothing or the start and a dash, then the end, a comma and the year of the end in four digits |
| `DisplayName.MonthDayIs` | src/api/types.rs:222-235 | a date in a label is the month's name, a space, and the day right-aligned in two places |
| `DisplayName.LabelsAgreeIff` | src/api/types.rs:225-233 | two ranges share a label exactly when they end alike, start on the same month and day, and are both single days or both not: only the start's year can differ |
| `DisplayName.StemOfTransformed` | src/cli/transform.rs:123-135 | from the file extract writes, transform's name and the label's stem keep the batch stem and the suffix |

## Left out

- HTTP, routing, templates, metrics, configuration, and the calls to NASA, JPL and Discord: a lookup or a send is only its outcome.
- Text collation and case folding: `fold` is any character map, and names are compared by code point, while Postgres uses the collation of the database; the proofs only need some fixed total order that agrees with equality.
- Widths of counters: `u32`, `u64` and `i32` counters are unbounded; the subscriber count is a `usize` with wrap-around, and catalog ids are 128-bit numbers.
- Floating point: in the catalog a float is its rank among the finite doubles, so NaN and infinities are not covered and the two zeros are one value; `format_commas` inputs are reals, so rounding before `round()` is not covered.
- Commas.FormatCommas: does not model the input that rounds to `i64::MIN`, whose absolute value does not fit; there `abs()` overflows.
- Extract.CutBatches: does not model batch size 0 on a non-empty range, where the loop never ends (`Extract.LoopEndsIff`), nor dates beyond what chrono can hold.
- EtlEvents.RunProcessFile: the method is the call that returns; killed calls are in the function `ProcessFile`, which the histories use.
- The time stamp of a hazard event, and the counters' columns in the log row.
- The words inside one filter conjunct: each is one token with its test, and its brackets (only `EXISTS (...)` has any) are taken to be closed, as they are in the source. The static part of the query up to `WHERE 1=1` is taken as read. Of SQL's grammar the model has what the builder pushes; that unbalanced brackets are no statement holds of all of it.
- `file_stem` and `parse_from_str` are modelled on plain file names and ASCII white space.
- Sentry.ScaleStore.UpdateSentryScales: when one statement holds an id twice the model lets the last value win, where Postgres may pick either; candidates are distinct ids, so it does not arise.
- Loads of several files at once, commands that overlap a load, and alert runs that overlap each other or a prune: they follow one another.
- Days of different time zones: the alert query takes today from the database and `prune` from UTC; the model has one calendar, and a prune's cutoff is not after its day. An approach deleted and loaded again has the date it had, since its id is derived from its moment.
- The stores' eviction policy and single flight: evictions are arbitrary, and each waiting request has a query of its own, so an error shared by several waiters is not shown as one.
- An empty webhook address: it makes `send_alert` return Ok without sending, and the model counts that as a send.
- Wall-clock time is a number that does not run backwards; delays and sleeps are left out.
- `get_detail`, `similar`, the dashboard's OFFSET pagination, embeddings, and `classify_hazard`: single queries or single expressions.
