# Kargozaar stock market server: a verified model

Kargozaar serves the quotes of the Tehran stock exchange. A worker thread downloads a spreadsheet at
intervals and stores it in SQLite; when the date in the spreadsheet changes, the tables of the former date are
renamed and recorded in an archive. Clients ask for the latest data, or for the data of an archived date,
through a small router of URI templates. A converter translates dates between the Gregorian and the Jalali
calendar. This project models these parts in Dafny and proves what they promise, over all inputs, all runs and
all interleavings.

## How the model is laid out

**The updater and its archive.** `Ingest` turns a decoded workbook into a *plan*: the statements its rows
demand, worked out without looking at the database. `ExecutePlan` says what a plan does to the tables under any
pattern of failing statements, with the inner `try` that swallows failures. The imperative methods, up to
`UpdateDatabase`, follow the source row by row and cell by cell over a class `DB` with a transaction, and are
proved equal to executing the plan. `Cells` says which cells of a workbook play no part and which end its
Update. On top of it `Archive` (integrity over any run), `Atomicity`, `Idempotence`, `Fidelity` (what is stored
is what is read back), `Completeness` (what was shown is what is archived), `Retention` (what survives being
replaced, under any faults) and `Provenance` (what is answered was once shown) prove the promises; `Returning`
and `LateStamp` have inputs that show what goes wrong when a date comes back and when the date row does not come
first. `Database` is the store: rows in
rowid order, statements that fail or apply as SQLite's do. `StatementLaws` is what these promise. `DbTables` holds names and schemas, `Stamp` the
search and normalisation of the date and time in cell A1, `StampText` which dates and times that finds,
`DataService` the queries, `PropertyTree` the reply tree, and `Serving` joins routing, reading and rendering
into one statement about what clients read.

**The worker protocol.** `WorkerProtocol` interleaves callers and detached worker threads around one mutex. An
interrupt may be delivered at a sleep or never, because the thread is detached before it is interrupted.
`StockUpdateWorker` is the class; each of its methods is proved to make exactly the steps of the protocol.

**The calendar converter.** `CDate` defines day numbers for both calendars by summing year and month lengths,
and conversion by counting days; `Isomorphism` proves that conversion keeps days, order and round trips.
`DateConv` holds the loops and threshold tables of the source, proved against it. Both calendars follow the
plain rule of the code, one leap year in four.

**The router.** `ServiceContract` has the class with `Register` and `Resolve`, `Routing` which contract wins,
`UriTemplates` the agreement of key computation and splitting and the round trip, `PublicApi` the six templates
and the dispatch.

## Results about the code worth knowing

- Leap years are every fourth year in both calendars; the exception for centuries is not implemented
  (`LeapYearsEveryFourth`). Conversions are exact inverses on that basis, for every integer year.
- Converting to text and back fails before 522/03/21 and from Jalali 9378/10/11 on, and nowhere else: there the
  intermediate year leaves the range the second conversion accepts (`TextRoundTripG`, `TextRoundTripJ`).
- A date that comes back after having been replaced is not archived again: its first tables stay and what was
  shown under it later is lost. The archive always shows what was shown before the first replacement
  (`ArchiveShowsFirst`), `KeptExactlyWhenFirst` gives the exact condition without faults, and
  `CompletenessFails` a run of four sheets for which completeness fails.
- One failing rename is enough to lose a date that never came back: the failure is swallowed and the update
  commits (`SwallowedRenameLosesDate`). A sheet without a date cell replaces the stored one without archiving
  it. `KeptExactly` gives the exact condition under any faults.
- Storing the same sheet again is recognised or fails, unless the query for the stored stamp fails: that
  failure is swallowed and the sheet is committed once more (`FailedQueryCommitsAgain`). For a well-formed sheet
  the tables stay the same in any case (`SecondUpdateChangesNothing`).
- Whatever is answered for a date was once shown, under any faults, if no title or data row stands ahead of a
  date cell (`RunAnswersWereShown`); a title row before the date row archives the new titles under the former
  date (`AnswerNeverShown`).
- A data row shorter than the header shows its last value in the columns that follow, because all values are
  fetched through one string that NULL leaves unchanged; a row without any cell shows its row number
  (`SheetFidelity`). Years whose last two figures contain a 0, such as 1390 and 1400, are not found in A1
  (`MatchesExactly`).
- A template with text behind a closing brace is registered with a key and a count that disagree
  (`CutButNotCounted`).
- The router checks no segment boundary after a key: text glued to a key resolves to its template
  (`TextGluedToKeyResolves`).
- Restarting in quick succession leaves one live worker per restart and one more; the bound is attained
  (`BoundIsAttained`).

## Model

| member | source | states |
|---|---|---|
| Ingest.UpdateDatabase | REST/stockupdateworker.cpp:278-452 | under any faults the tables afterwards are those of executing the workbook's plan, or the former ones when it is skipped or fails; no transaction stays open |
| Ingest.OneRow | REST/stockupdateworker.cpp:283-429 | one row, its cells in order, advances execution from the plan at this row to the plan at the next, or ends Update without a commit |
| Ingest.RowHead | REST/stockupdateworker.cpp:283-307 | the start of a row rebuilds DATA_TITLES at row 2 and STOCK_DATA at row 3 with the collected columns, and inserts the row key from row 3 on; the first failure ends Update |
| Ingest.OneCell | REST/stockupdateworker.cpp:313-426 | one cell: the stamp in A1, a title, or a data value at the column of its position; unreadable values and missing columns abort |
| Ingest.CompareWithLast | REST/stockupdateworker.cpp:354-398 | an equal stamp is recognised; a changed date runs the three rotation statements up to the first failure, which is swallowed and undoes nothing |
| Ingest.Finish | REST/stockupdateworker.cpp:431-439 | LAST_UPDATE is rebuilt and the transaction committed, all or not at all |
| Ingest.TryThree | REST/stockupdateworker.cpp:378-398 | what three statements in the inner try leave behind, for each of them that may fail |
| Cells.IdleCellsPlayNoPart | REST/stockupdateworker.cpp:313-415 | in any workbook, taking a cell out of row 1 that is no shared string in A1, or out of row 2 that holds no shared string, changes nothing about any Update of it, under any faults |
| Cells.CommittedIsSound | REST/stockupdateworker.cpp:313-426 | under any faults, a workbook with an unreadable date cell, title or value, or with a value beyond the titles, is never committed |
| Cells.RowThreeNeedsDistinctTitles | REST/stockupdateworker.cpp:289-301 | a committed workbook had distinct column names, and no key among them, when its row 3 was read |
| Cells.SecondRowThreeNeverCommits | REST/stockupdateworker.cpp:289-301 | once a row 3 was read, another row 3 ends every Update |
| Archive.ArchiveIntegrity | REST/stockupdateworker.cpp:372-398 | over any run from the initial database, any workbooks, any faults: ARCHIVE dates are unique, each entry names two different existing tables made from its own date and shared with no other entry, and every later state keeps all entries and the contents of all dated tables |
| Archive.RunKeepsGood | REST/stockupdateworker.cpp:218-466 | the archive invariant is kept, and the archive only extended, by any further run from any good state |
| Archive.RotationKeepsGood | REST/stockupdateworker.cpp:372-398 | the rotation stopped after any of its three statements keeps the archive invariant, although a half-done rotation may be committed |
| Archive.RecordKeepsGood | REST/stockupdateworker.cpp:386-394 | once both renames went through, the insertion appends exactly one entry, with no other of that date |
| Archive.RowPlanTouchesCurrent | REST/stockupdateworker.cpp:280-439 | outside the inner try, no workbook makes Update write any table but the three current ones, or rename any |
| Archive.InitialIsGood | REST/dbtables.cpp:25-29 | creating the ARCHIVE table on an empty database establishes the archive invariant |
| Archive.RunKeepsOrder | REST/stockupdateworker.cpp:280-429 | whatever the order of rows in the sheets, all tables of all reachable states list rows in strictly ascending rowid |
| Archive.DataByDateIsTotal | REST/publicapiresource.cpp:268-337 | in every reachable state a request by date is answered with data of that date exactly when ARCHIVE has it, else with not-found, and never faults |
| Archive.AnswersNeverChange | REST/publicapiresource.cpp:268-337 | an answer for a date stays the same through any further run, with any workbooks and faults |
| Provenance.RunAnswersWereShown | REST/stockupdateworker.cpp:354-398 | over any run from a good state, any faults, of workbooks in which no row above 1 stands ahead of a date cell: an answer for a date is the one before the run, or exactly what GetLatestData returned at some point of the run |
| Provenance.ComparesFirstAnswers | REST/stockupdateworker.cpp:280-439 | one Update whose comparisons all come first: without STOCK_DATA no answer by date changes, and with it an answer is the former one or what was shown |
| Provenance.AnswersWereShown | REST/publicapiresource.cpp:268-337 | from the initial database on, in such a run, all data ever answered for a date was once the latest data |
| Provenance.RotationAnswers | REST/stockupdateworker.cpp:372-398 | however far the rotation gets, an answer by date is the former one or what the current tables held |
| LateStamp.LateStampMixesSheets | REST/stockupdateworker.cpp:285-386 | row 2 before row 1: the new titles are stored before the rotation and archived under the former date, an answer that was never shown |
| LateStamp.AnswerNeverShown | REST/stockupdateworker.cpp:285-386 | two concrete dates for such a run |
| Atomicity.UpdateIsAtomic | REST/stockupdateworker.cpp:278-452 | with faults at any statements, either nothing changed, or every statement outside the inner try took effect and LAST_UPDATE holds one row, the stamp of the sheet |
| Atomicity.CommitMeansEffective | REST/stockupdateworker.cpp:278-439 | a committed plan had all its statements take effect, with a beginning of the rotation of the stored date at most in between |
| Atomicity.RowEndsStamped | REST/stockupdateworker.cpp:431-439 | any effective plan ends with LAST_UPDATE holding the date and time read from the remaining rows |
| Idempotence.UpdateIsIdempotent | REST/stockupdateworker.cpp:354-371 | a workbook with a date cell, just committed, is committed again only if the query of the last comparison fails in the second Update; otherwise nothing is committed and the tables stay as they are; any faults in both Updates |
| Idempotence.SecondUpdateChangesNothing | REST/stockupdateworker.cpp:354-439 | a well-formed workbook stored again right after its commit never changes the tables, not even when that query fails and it is committed again; any faults in both Updates |
| Idempotence.FailedQueryCommitsAgain | REST/stockupdateworker.cpp:354-398 | when only that query fails, its failure is swallowed and a well-formed workbook with a date cell is committed a second time, with the very same tables |
| Idempotence.SkippedExactlyWhenReached | REST/stockupdateworker.cpp:285-371 | for any workbook with a date cell and any faults, the second Update takes the rollback path of an equal stamp if and only if the transaction begins and its statements succeed up to a comparison with the stored stamp whose query succeeds |
| Idempotence.SecondUpdateIsSkipped | REST/stockupdateworker.cpp:368-371 | when the only date row comes first, the second Update takes that path if and only if the transaction begins and its first query succeeds |
| Idempotence.RecognisedExactly | REST/stockupdateworker.cpp:354-371 | for a well-formed workbook, any tables and any faults: it is recognised as stored if and only if it has a date cell, the transaction begins, the query succeeds and LAST_UPDATE holds its date and time |
| LateStamp.SecondUpdateMayFail | REST/stockupdateworker.cpp:303-307 | row 4 before row 1: the first Update commits and its rotation takes STOCK_DATA away, and the second ends in an exception before it compares, under any faults |
| Fidelity.SheetFidelity | REST/publicapiresource.cpp:339-402 | after a committed update from a well-formed sheet, whatever faults it met, GetLatestData returns its date and time, the string cells of row 2 decoded in order wherever they stand, and the numbered rows from 3 on in order: cell k under title k, without the row number column, and in a row shorter than the header its last value (or the row number) repeated; rows without a number change nothing; without faults such an update never fails |
| Fidelity.CommittedUpdate | REST/stockupdateworker.cpp:280-452 | under any faults a committed update of a well-formed sheet has replaced all three current tables by exactly its own, on whatever its first row left behind |
| Fidelity.WellFormedUpdate | REST/stockupdateworker.cpp:280-439 | without faults a well-formed sheet is either recognised as the stored one or replaces all three current tables by exactly its own |
| Fidelity.PairReadsBack | REST/publicapiresource.cpp:300-332 | the two tables of a sheet read back as its titles and data under whatever names they stand |
| Completeness.ArchiveShowsFirst | REST/publicapiresource.cpp:268-337 | over any fault-free run of well-formed sheets with date cells, asking for a replaced date at any later point gives the time, titles and data that GetLatestData returned just before the date was first replaced |
| Completeness.ArchiveIsComplete | REST/publicapiresource.cpp:268-337 | hence, in such a run where no replaced date comes back, every replaced date gives exactly what GetLatestData returned just before its replacement |
| Completeness.NeverReplacedIsNotFound | REST/publicapiresource.cpp:292-296 | in such a run a date that was never replaced is not found |
| Completeness.KeptExactlyWhenFirst | REST/stockupdateworker.cpp:372-398 | the exact condition in such a run, without faults: what is shown under a date when it is replaced can be asked for later if and only if the date was not replaced before, or its archive already showed the same |
| Retention.KeptExactly | REST/stockupdateworker.cpp:354-398 | the exact condition under any faults, for a committed update of a well-formed sheet with another date: what was shown can be asked for afterwards if and only if the sheet has a date cell, the comparing query and the three rotation statements do not fail and no dated table of the date exists, or the archive already showed the same |
| Retention.KeptExactlyInRun | REST/stockupdateworker.cpp:354-398 | the same at every point of every run of well-formed sheets from the initial database, whatever faults it met, once a sheet is stored; and what is kept is kept through any further run |
| Retention.RunHolds | REST/stockupdateworker.cpp:280-452 | over any run of well-formed sheets, with any faults, there is no stored stamp, or it has one row and both current tables exist |
| Retention.SwallowedRenameLosesDate | REST/stockupdateworker.cpp:378-398 | when only the first rename fails the update commits all the same, and a date never replaced before is shown before it and not found after it |
| Retention.DateIsLost | REST/stockupdateworker.cpp:378-398 | two concrete sheets for that |
| Returning.CompletenessFails | REST/stockupdateworker.cpp:372-398 | a concrete fault-free run of four sheets in which a date comes back and the archive does not show what was last shown under it |
| Returning.ReturningDateIsLost | REST/stockupdateworker.cpp:372-398 | without faults, whenever the third of four sheets has the date of the first and other content, the archive keeps the content of the first |
| Returning.LatestIsContent | REST/publicapiresource.cpp:339-402 | in a fault-free run, a sheet with another stamp than the one before it is what is shown next |
| Completeness.ArchivedExactlyWhenFresh | REST/stockupdateworker.cpp:372-398 | in every good state and under any faults, ARCHIVE gets the entry of a date, and no other, if and only if both current tables exist, neither of its dated tables does, and none of the three statements fails |
| Completeness.RotationSucceeds | REST/stockupdateworker.cpp:372-395 | with fresh dated names and none of its three statements failing, the rotation moves both tables unchanged and adds the entry |
| Completeness.RotationStops | REST/stockupdateworker.cpp:372-398 | in every other case, under any faults, the rotation leaves ARCHIVE and all dated tables as they were |
| Completeness.NoSecondRotation | REST/stockupdateworker.cpp:378-398 | with a dated stock table of that date present, the rotation changes nothing, under any faults |
| Completeness.RunKeepsInv | REST/stockupdateworker.cpp:354-439 | at every point of any fault-free run of well-formed sheets with date cells LAST_UPDATE holds the stamp of the last sheet, and dated tables exist exactly for the dates replaced so far |
| Serving.ReplacedDateIsServed | REST/publicapiresource.cpp:92-157 | in any such run, a request for a replaced date with a valid token reads the content shown just before the date was first replaced, in the tree of the format asked for: nameless children for JSON, elements n, r and c for XML |
| Serving.LatestIsServed | REST/publicapiresource.cpp:92-157 | after a committed update of a well-formed sheet, under any faults, a request for the latest data with a valid token reads the content of that sheet, in the tree of the format asked for |
| Serving.DateIsServedOrUnknown | REST/publicapiresource.cpp:268-337 | in every good state, a request for a date with a valid token is served with data of that date in the format asked for exactly when the archive has it, and else refused as unknown |
| Serving.InvalidTokenIsRefused | REST/publicapiresource.cpp:105-116 | with an invalid token neither kind of data is served, and the refusal is in the format asked for |
| Serving.TokenIsIssued | REST/publicapiresource.cpp:138-147 | a token is issued in the format asked for without any token |
| Serving.NothingToServe | REST/publicapiresource.cpp:172-174 | before anything was stored, a request for the latest data ends in a server error |
| Serving.Handle | REST/publicapiresource.cpp:92-157 | a request is routed, read and rendered as the tables and the dispatch say |
| DataService.GetLatestData | REST/publicapiresource.cpp:339-402 | the reply is the content of the current pair under the stored stamp; empty without a stored stamp |
| DataService.GetDataByDate | REST/publicapiresource.cpp:268-337 | the reply is the content of the pair recorded for the date, with dashes read as slashes; not-found without a record |
| DataService.ReadTables | REST/publicapiresource.cpp:300-332 | the result loops read titles and rows in rowid order through one string, so that NULL repeats the value before it |
| DataService.ReadCompleteRows | REST/publicapiresource.cpp:318-332 | without NULLs the data is, row by row, every column but the first |
| DataService.ReadOneMore | REST/publicapiresource.cpp:318-332 | a row whose last columns are NULL shows its last value in them, and nothing is carried into it from the rows before |
| DataService.LastTitleIsCarried | REST/publicapiresource.cpp:306-332 | a first data row of NULLs shows the last title in every column |
| DataService.RepliesWithoutData | REST/publicapiresource.cpp:282-361 | missing tables and columns are errors, a LAST_UPDATE without rows is an empty reply, and an empty ARCHIVE finds no date |
| DataService.ReadCompleteTitles | REST/publicapiresource.cpp:306-310 | without NULLs the titles are the title column in order |
| PropertyTree.GetDataTree | REST/publicapiresource.cpp:208-266 | the tree built by puts and appended children is the spelled-out reply tree, in both formats |
| PropertyTree.BuildLeaves | REST/publicapiresource.cpp:223-236 | the loop over values gives one leaf each, in order |
| PropertyTree.BuildRows | REST/publicapiresource.cpp:239-264 | the loop over rows gives one subtree of leaves each, in order |
| PropertyTree.TreeCarriesContent | REST/publicapiresource.cpp:208-266 | looking up date, time, titles and data in either tree gives back exactly the content it was built from |
| PropertyTree.TreeIsNamed | REST/publicapiresource.cpp:223-265 | titles, rows and cells are nameless children in JSON and named n, r and c in XML |
| PropertyTree.TreeStatesVersion | REST/publicapiresource.cpp:215-218 | every reply states version 1.0, compatible with 1.0 |
| Database.DB.Exec | CoreLib/db.cpp:73-137 | one statement, with its whole effect on the tables, or failure without any |
| Database.DB.Begin | REST/stockupdateworker.cpp:278 | the transaction keeps the tables of its start |
| Database.DB.Commit | REST/stockupdateworker.cpp:439 | the changes stay, or the transaction stays open if committing fails |
| Database.DB.Rollback | REST/stockupdateworker.cpp:369 | the tables of the start of the transaction are back |
| Database.DB.Query | REST/stockupdateworker.cpp:355-361 | the rows in rowid order, or failure; the tables are untouched |
| Database.InsertKeepsSorted | CoreLib/db.cpp:93-116 | an insertion keeps rows strictly ascending by rowid, and so never doubles a key |
| Database.ApplyKeepsOrder | CoreLib/db.cpp:73-137 | every statement keeps the row order of every table |
| Database.ApplyFrame | CoreLib/db.cpp:73-137 | a statement changes no table it does not name |
| StatementLaws.CreateKeepsExisting | CoreLib/db.cpp:73-79 | creating a table that exists keeps it with its rows |
| StatementLaws.BadFieldsAreRefused | CoreLib/db.cpp:73-79 | two columns of one name make the creation of a new table an error |
| StatementLaws.InsertNeverReplaces | CoreLib/db.cpp:93-116 | an insertion changes and removes no row: it adds one or is ignored |
| StatementLaws.SecondKeyIsIgnored | CoreLib/db.cpp:105-107 | in a table keyed by a text a second row with the same key is ignored |
| StatementLaws.SecondNumberIsIgnored | CoreLib/db.cpp:105-107 | in a table keyed by a row number, so is a second row with the same number |
| Archive.RestartKeepsArchive | REST/dbtables.cpp:25-29 | InitTables at a restart changes nothing in any reachable state |
| DbTables.DBTables.SetFields | REST/dbtables.cpp:68-71 | the field list of one table is replaced, the others stay |
| DbTables.TableFromDateInjective | REST/dbtables.cpp:51-56 | a dated table name determines the table it was made from and the date |
| DbTables.DatedNamesAreNotCurrent | REST/dbtables.cpp:51-56 | no dated name is one of the four current tables |
| DbTables.NamesInTheDatabase | REST/dbtables.cpp:41-49 | the four table names, and the text for unknown ids |
| DbTables.DatedName | REST/dbtables.cpp:51-56 | a dated name is the prefix, the table name and the date with underscores for slashes |
| Stamp.MatchIsNormalised | REST/stockupdateworker.cpp:321-352 | whatever either expression matches normalises to the fixed form of 10 or 8 characters |
| Stamp.NormaliseKeepsFields | REST/stockupdateworker.cpp:326-351 | normalising keeps the head and the numeric value of both fields |
| Stamp.NormalIsFixed | REST/stockupdateworker.cpp:321-352 | matching and normalising a normal form is the identity |
| Stamp.EmbeddedStampIsFound | REST/stockupdateworker.cpp:325-352 | a normal form anywhere in the cell text is what is found, unless a match starts before it |
| StampText.SpellingIsStored | REST/stockupdateworker.cpp:321-352 | for all years 13xy with x and y from 1 to 9, months 1 to 12 and days 1 to 31 (and likewise times), in one or two figures, anywhere in the text: they are stored with two figures each, unless a stamp begins before; one figure at the end must not be followed by another |
| StampText.FirstSpellingIsStored | REST/stockupdateworker.cpp:321-352 | in particular when no character stands before it with which a stamp could begin |
| StampText.StoredExactly | REST/stockupdateworker.cpp:325-352 | the exact result for any text: some spelling at the leftmost place where one begins, stored in full, and the former value if there is none |
| StampText.MatchesExactly | REST/stockupdateworker.cpp:321-322 | a match begins exactly where such a spelling does |
| StampText.NormalIsFull | REST/stockupdateworker.cpp:321-337 | the normal forms are exactly the full spellings of these dates and times |
| Stamp.StampIsNormal | REST/stockupdateworker.cpp:325-352 | the variables date and time only ever hold the empty text or a normal form |
| Stamp.DateOrder | REST/stockupdateworker.cpp:321-337 | the string order of normalised dates is the order of (year, month, day) |
| StockUpdateWorker.StockUpdateWorker.SetSourceURL | REST/stockupdateworker.cpp:96-105 | sets SourceURL unless running, leaves every other field as it is, and makes the steps of the protocol |
| StockUpdateWorker.StockUpdateWorker.SetInterval | REST/stockupdateworker.cpp:107-116 | sets Interval unless running, leaves every other field as it is, and makes the steps of the protocol |
| StockUpdateWorker.StockUpdateWorker.SetTempFile | REST/stockupdateworker.cpp:118-127 | sets TempFile unless running, leaves every other field as it is, and makes the steps of the protocol |
| StockUpdateWorker.StockUpdateWorker.Start | REST/stockupdateworker.cpp:137-156 | unless running creates one thread and keeps its handle; the settings stay |
| StockUpdateWorker.StockUpdateWorker.Stop | REST/stockupdateworker.cpp:158-173 | when running clears Running, asks the thread of the handle to end and drops the handle; the settings stay |
| StockUpdateWorker.StockUpdateWorker.Round | REST/stockupdateworker.cpp:201-209 | one locked round of Cron: Update with the mutex held, then sleep or end |
| WorkerProtocol.MutualExclusion | REST/stockupdateworker.cpp:191-216 | in every reachable state at most one thread is inside Update, and it holds the mutex |
| WorkerProtocol.SettingsAreFrozen | REST/stockupdateworker.cpp:96-127 | from any reachable state on, the settings keep their values as long as Running holds or some worker is inside Update |
| WorkerProtocol.SettersSet | REST/stockupdateworker.cpp:96-127 | from every state with a free mutex a setter sets its own setting and nothing else, or nothing at all while Running holds |
| WorkerProtocol.StopAsksTheStarted | REST/stockupdateworker.cpp:137-173 | Start and then Stop create one thread and ask exactly that thread to end |
| WorkerProtocol.HandleIsTheLatest | REST/stockupdateworker.cpp:137-173 | in every reachable state in which Running holds, Stop would ask the thread started last, which was not asked before |
| WorkerProtocol.OnlyStopEndsWorkers | REST/stockupdateworker.cpp:158-216 | without an effective Stop no worker ever ends |
| WorkerProtocol.InterruptionIsFinal | REST/stockupdateworker.cpp:191-216 | an interruption that is delivered ends its thread at once; it begins no further Update |
| WorkerProtocol.FirstUpdateIsCertain | REST/stockupdateworker.cpp:191-209 | a worker that starts immediately does not end before it has begun an Update |
| WorkerProtocol.WorkersStarted | REST/stockupdateworker.cpp:137-173 | threads created and effective Stops balance over every run |
| WorkerProtocol.LiveWorkersAreBounded | REST/stockupdateworker.cpp:137-173 | live workers never exceed the effective Stops, plus one while Running holds |
| WorkerProtocol.BoundIsAttained | REST/stockupdateworker.cpp:154-172 | for every n there is a run with n effective Stops and n + 1 live workers |
| WorkerProtocol.StopDrains | REST/stockupdateworker.cpp:191-216 | after a Stop with no later Start, in every interleaving each worker begins at most one more Update, and worker steps plus live workers never exceed four per worker alive at first |
| WorkerProtocol.SomeoneCanMove | REST/stockupdateworker.cpp:191-216 | while a worker lives, the holder of the mutex or a worker can always move |
| DateConv.CalcToG | CoreLib/cdate.cpp:38-57 | the threshold search gives the text of the date found by counting days |
| DateConv.CalcToJ | CoreLib/cdate.cpp:59-78 | the same in the other direction |
| DateConv.DayOfYearG | CoreLib/cdate.cpp:104-113 | the loop adds the lengths of the months before the given one |
| DateConv.DayOfYearJ | CoreLib/cdate.cpp:115-124 | the same for Jalali months |
| DateConv.ToGregorian | CoreLib/cdate.cpp:140-146 | the text of the converted date for every date in range, the empty text for every other input |
| DateConv.ToJalali | CoreLib/cdate.cpp:161-167 | the same in the other direction |
| DateConv.GregorianThereAndBack | CoreLib/cdate.cpp:38-124 | the loops and searches of both directions one after the other, through the text, give back the original Gregorian date, for every integer year |
| DateConv.JalaliThereAndBack | CoreLib/cdate.cpp:38-124 | the same from a Jalali date |
| DateConv.FirstHitG | CoreLib/cdate.cpp:46-51 | at the first hit the day, month and year arithmetic is the counted date, and there always is a hit |
| DateConv.FirstHitJ | CoreLib/cdate.cpp:67-72 | the same for the Jalali table, whose entry 9 wraps around |
| DateConv.ThresholdsG | CoreLib/cdate.cpp:41 | each threshold is the first day of its month counted in days of the other calendar's year |
| DateConv.RangeOfValidDate | CoreLib/cdate.cpp:80-102 | the range checks accept exactly the valid dates with years in their ranges |
| DateConv.FormatRoundTrip | CoreLib/cdate.cpp:53-56 | a formatted date, negative years included, reads back as itself; month and day take two characters |
| DateConv.TextRoundTripG | CoreLib/cdate.cpp:140-167 | converting to Jalali text and back gives the original exactly from 522/03/21 on, and the empty text before |
| DateConv.TextRoundTripJ | CoreLib/cdate.cpp:140-167 | the other way round, exactly before Jalali 9378/10/11 |
| DateConv.NowruzOf1394 | CoreLib/cdate.cpp:140-167 | 1394/01/01 is 2015/03/21, both ways, as text |
| CDate.LeapYearsEveryFourth | CoreLib/cdate.cpp:126-138 | with the truncating remainder, both rules hold every fourth year, negative years included |
| Isomorphism.ToJPreservesDay | CoreLib/cdate.cpp:59-78 | conversion to Jalali keeps the linear day up to one fixed offset, for every integer year |
| Isomorphism.ToGPreservesDay | CoreLib/cdate.cpp:38-57 | conversion to Gregorian keeps the linear day, with the same offset |
| Isomorphism.RoundTripG | CoreLib/cdate.cpp:38-78 | Gregorian to Jalali and back is the identity on all valid dates |
| Isomorphism.RoundTripJ | CoreLib/cdate.cpp:38-78 | Jalali to Gregorian and back is the identity on all valid dates |
| Isomorphism.OrderIsomorphism | CoreLib/cdate.cpp:38-78 | conversion to Jalali is strictly monotone and maps consecutive days to consecutive days, and only those |
| Isomorphism.OrderIsomorphismBack | CoreLib/cdate.cpp:38-78 | the same for conversion to Gregorian |
| CDate.LinearIsMonotone | CoreLib/cdate.cpp:104-124 | day numbers order valid dates as (year, month, day) does and identify them |
| CDate.NextIsSuccessor | CoreLib/cdate.cpp:104-124 | the next calendar day has the next day number, across month and year ends |
| Text.IntRoundTrip | CoreLib/cdate.cpp:30-36 | every printed integer reads back as itself |
| Text.SplitJoin | REST/servicecontract.cpp:37-38 | splitting undoes joining when no part contains the separator |
| ServiceContract.ServiceContract.Register | REST/servicecontract.cpp:35-55 | one contract is inserted behind all keys not greater than its own |
| ServiceContract.ServiceContract.Resolve | REST/servicecontract.cpp:57-91 | the outcome, template and argument vector for any contracts, any URI and any arguments already there |
| ServiceContract.ServiceContract.PushArguments | REST/servicecontract.cpp:66-80 | pushes and counts the non-empty parts after the key |
| Routing.RegisteredIsSorted | REST/servicecontract.cpp:52-54 | the contracts are sorted by key, equal keys in registration order |
| Routing.EveryRegistrationIsKept | REST/servicecontract.cpp:52-54 | no registration gets lost |
| Routing.ShortestKeyWins | REST/servicecontract.cpp:62-87 | among matching registrations the one with the shortest key wins, of several with that key the earliest |
| Routing.ResolvesExactlyWhenMatched | REST/servicecontract.cpp:57-91 | Resolve succeeds if and only if the URI does not end in a slash and a registration matches |
| Routing.RegistrationOrderIsIrrelevant | REST/servicecontract.cpp:52-87 | with distinct keys, any registration order gives the same contracts and the same results |
| Routing.WinnersArgumentsComeLast | REST/servicecontract.cpp:66-85 | on success the vector is the old one extended, and its last entries are the winner's arguments |
| Routing.EveryTrialIsPushed | REST/servicecontract.cpp:62-80 | every candidate tried leaves its arguments in the vector, in the order of trial, whether it fits or not |
| Routing.FailureLeaves | REST/servicecontract.cpp:57-91 | a failed resolution leaves no template, and the vector as it was if the URI ends in a slash, else with the arguments of all candidates behind it |
| Routing.OnlyCandidate | REST/servicecontract.cpp:62-87 | with prefix-free keys a URI has one candidate, and only its arguments are pushed |
| UriTemplates.KeyIsTheLiterals | REST/servicecontract.cpp:37-54 | the scan that removes parameters equals splitting, dropping parameters and rejoining, and removes as many as are counted |
| UriTemplates.InstantiateThenResolve | REST/servicecontract.cpp:57-91 | with prefix-free keys, the URI made from a template and non-empty slash-free arguments resolves to that template and exactly those arguments |
| UriTemplates.SpreadThenResolve | REST/servicecontract.cpp:70-80 | the same however many slashes stand before each argument |
| UriTemplates.GluedTextIsAnArgument | REST/servicecontract.cpp:65-80 | text glued to a key is one more argument once a slash follows it |
| UriTemplates.ParameterExactly | REST/servicecontract.cpp:43-46 | a part counts as a parameter exactly when it begins with an opening and ends with a closing brace |
| UriTemplates.CutButNotCounted | REST/servicecontract.cpp:40-54 | with text behind the closing brace the key loses the parameter but the parameter is not counted |
| UriTemplates.TextGluedToKeyResolves | REST/servicecontract.cpp:65-85 | with prefix-free keys, slash-free text glued to a key without parameters resolves as if it were not there |
| PublicApi.ApiIsPrefixFree | REST/publicapiresource.cpp:28-33 | none of the six keys is a prefix of another |
| PublicApi.TemplateOfEndpoint | REST/publicapiresource.cpp:28-33 | each template text is the rendering of its segments, with the key and the parameter count registered for it |
| PublicApi.ResolvedEndpoint | REST/publicapiresource.cpp:102 | resolution succeeds exactly on URIs that address an endpoint, with exactly its parameters as arguments, so that the first and last are in range |
| PublicApi.PublicAPIResource.HandleRequest | REST/publicapiresource.cpp:92-157 | token check on the last argument, dispatch by template with the date as first argument, and the format of every error reply, for any URI |
| PublicApi.RequestRoundTrip | REST/publicapiresource.cpp:92-157 | the URI made from an endpoint and good arguments is served by that endpoint with those arguments, or refused for its token |
| PublicApi.RefusedExactly | REST/publicapiresource.cpp:102-157 | a request is refused exactly when its URI ends in a slash or fits no endpoint |
| PublicApi.RefusedInItsFormat | REST/publicapiresource.cpp:149-157 | the reply to a refused request is JSON if the URI contains /JSON, else XML if it contains /XML, else plain |
| PublicApi.RefusedInTheEndpointsFormat | REST/publicapiresource.cpp:149-157 | so a refused request to an endpoint, say one without its token, is answered in the format of that endpoint |
| PublicApi.ByDateTemplates | REST/publicapiresource.cpp:28-29 | the two by-date templates, letter by letter |
| PublicApi.LatestTemplates | REST/publicapiresource.cpp:30-31 | the two latest-data templates, letter by letter |
| PublicApi.TokenTemplates | REST/publicapiresource.cpp:32-33 | the two token templates, letter by letter |

## Left out

- Download, unzipping, XML parsing, temporary files and their removal: a workbook is given decoded, or absent when one of these fails.
- Text of a `double`: a cell carries the text that lexical_cast makes of its number.
- SQLite and cppdb internals, SQL text, cursor locking, and one session shared by several threads: reads are atomic between transactions; a statement that fails changes nothing and leaves the transaction open.
- Faults while reading: GetLatestData and GetDataByDate see missing tables and columns as errors, but no other faults.
- Failure of ROLLBACK, and errors upon which SQLite rolls back a whole transaction by itself.
- SQLite's case-insensitive and quoted identifiers, keywords and column limit: field names in an UPDATE are accepted when they are upper-case references such as BC14, and rejected otherwise.
- Field lists with a key that is not last or not on the first column: none of the source's lists is of that kind, and CREATE TABLE refuses them here.
- NULL handling of cppdb, which is not part of the repository: fetching NULL is taken to leave the string variable unchanged.
- Reading past the end of sharedStrings or tableFieldsId is undefined in C++; it is modelled as an exception that ends Update.
- Integer widths: years, row numbers and counters are unbounded; the public conversions only accept years below 10000.
- Fidelity and completeness for sheets without rows 1, 2 and 3 in front, for data rows out of order or with a number twice, and for rows longer than the header (which end the Update, see CommittedIsSound).
- Provenance.RunAnswersWereShown: for workbooks in which no row above 1 stands ahead of a date cell; otherwise two sheets can mix, see LateStampMixesSheets.
- Completeness.ArchiveIsComplete: for fault-free runs where no replaced date comes back; without either it does not hold of the code, and KeptExactlyWhenFirst and Retention.KeptExactly have the exact conditions.
- Fairness and time in the worker protocol: sleeping is one step, and the endless loop of Cron is a sequence of steps. Getters are queries without effect; the destructor and logging are not modelled.
- The brace in the expression `\/{.*?\}` is read as a literal brace.
- The 100/400 leap rule and astronomical Nowruz, which the code does not implement; the Now variants of the converter and Persian day names.
- Token contents and encryption: validity of a token is an arbitrary predicate. The document with a new token, the texts of error replies and status documents are not modelled.
- How the web framework forms the request URI from path and path information.
- JSON and XML text: the model ends at the property tree.
- Web pages, widgets, mail, GeoIP, process lock and build files.
