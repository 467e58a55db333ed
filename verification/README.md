# LeadStream, verified

A Dafny model of the parts of LeadStream where small mistakes are easy to make and hard to see, with
proofs about every input, every table content or every run.

| part | modules | main results |
|---|---|---|
| delimited text | `Text`, `CsvParser`, `CsvReading`, `CsvPrinters`, `UploadDelimiter`, `ImportUpload`, `LeadExport`, `ExportQuotes`, `ExportRows`, `LeadRecords` | the character loop equals a loop-free reading; exact conditions for both printers to be read back |
| session | `SessionProtocol`, `SessionRuns`, `SessionTurns`, `SessionHistory`, `SessionClient` | single-flight refresh in every interleaving; shared outcomes, retry tokens, bounded runs; the token held, from the events alone |
| enrichment poller | `PollingProtocol`, `PollingRuns`, `PollingSteps`, `EnrichmentPage` | a start exactly when due and once per reset, exactly one pending activity per live poller, quiet after cleanup, for any overlap of pollers |
| commercial export | `Tables`, `CommercialJoin`, `CommercialExporter`, `CommercialProperties`, `CommercialRows`, `CommercialCells`, `ExportKey` | the chunked, prefetching exporter refines a per-item join for every chunk size; its rows, cells and counters in terms of the raw tables |
| document numbers | `CheckDigits`, `CheckDigitSums`, `BatchPreflight` | the exact set of errors the check digits let through; conservation in the preflight loop |
| hygiene and search | `HeaderForms`, `Hygiene`, `HygieneProperties`, `HygieneResults`, `LeadSearch` | one header normal form for browser and server; what a run of hygiene reports and when it is a fixed point; pages concatenate to the result |

Loops and objects that update their fields are methods and classes (`ParseRows`, `ApiClient`, `Page`,
`CommercialBatchExporter`, `Preflight`, `NormalizeRow`, ...), each proved equal to a function or a step of a
state machine; the theorems are about those. Concurrency is interleaving: one step per stretch of code
between two `await`s, in any order, with any answer from the server; `SessionTurns` adds the order in which a
browser drains promise jobs.

## Where the code does not do what one might expect

Where a promise fails, the entry names the exact condition and a lemma at a concrete input.

- **Import upload.** The reader guesses the delimiter from the first physical line. A table that the upload
  itself printed is read back exactly when it has one column or the commas on that line, inside cells and
  between them, are at least as many as the semicolons and as the TABs (`ImportRoundTrip`); one record with
  the keys `;;` and `a` is not (`UploadMisread`). The import dialog's own keys are header normal forms or
  alias names without any delimiter, so what it uploads is always read back (`PlainKeysReadBack`,
  `NormalKeyPlain`).
- **Lead export.** Quotes are not doubled. A list of leads that each show something among the chosen columns
  is read back exactly when no cell holds a quote, except that the very last cell of the file may end with a
  single one (`LeadsReadBack`; with the intent columns every lead shows something, `IntentLeadsReadBack`). A
  quote in any lead's name is enough to lose it (`QuotedNameLost`). A lead whose chosen columns are all blank
  disappears (`OneRecordPerLead`, `BlankLeadLost`); rows with a blank one among them can be read back although
  they hold a quote (`BlankRowHides`).
- **Blob retry.** `requestBlob` reads `accessToken` again after a refresh. It finds the token that the refresh
  returned whenever that token is not empty, in every run a browser can schedule (`RetryToken`); after a
  refresh that answers an empty token it sends none (`EmptyRenewal`), where `request` sends an empty one.
- **A `null` answer.** A refresh or login answered with JSON `null` throws before the token is touched, so
  such a refresh rejects without clearing the session (`OnRefreshPayload`, `OnContinue`).
- **Poller.** A poller that saw a terminal batch polls again exactly when its own `refresh()` rejects before
  its cleanup (`TerminalTimer`, `TerminalRearmed`). The application's `refresh` catches its errors
  (frontend/src/LeadStreamContext.tsx:124-141), and then it never does (`TerminalIsLast`). A failed enrichment
  start is not retried (`NoRestart`), and a batch that FAILED or was CANCELLED during hygiene is started too,
  because those statuses are final.
- **Hygiene.** Neither `trade_name` nor `domain` is an alias of itself. A row keeps its fingerprint when its
  output is cleaned again exactly when its identifier was not its domain (`HygieneAgain`); the row with the one
  column `site` has none the second time (`DomainForgotten`).
- **Telephones.** A national number in area 55 is recognised with the country code only: without it, its own
  first two digits are taken for the code (`PhoneExact`).
- **Export cache key.** A comma inside a name can make two requests collide. They do exactly when batch, level
  and timestamp agree and the sorted names, cut at commas, agree (`KeyCollides`): `A,B` collides with `A` and
  `B` (`CommaCollides`), `B,A` does not (`CommaDistinct`).
- **CNPJ.** The browser accepts letters in the base, the server does not; the server accepts repeated bases,
  the browser does not (`ServerAndBrowser`, `OnlyBrowserAccepts`, `OnlyServerAccepts`).

## Model

| member | source | states |
|---|---|---|
| CsvParser.DetectDelimiter | frontend/src/components/UploadEnrichModal.tsx:81-84 | the chosen delimiter is one of comma, semicolon, TAB, occurs at least as often as each of them, and strictly more often than those named before it |
| CsvParser.ParseRows | frontend/src/components/UploadEnrichModal.tsx:86-115 | the character loop over rows, row, field, quoted flag and index returns, on every text, the rows of a loop-free reading: a line feed or delimiter separates exactly when it stands outside quotes, each piece is unquoted and trimmed, blank rows are dropped |
| CsvParser.BranchesKeep | frontend/src/components/UploadEnrichModal.tsx:94-113 | what each of the five branches does to the loop's variables keeps finished rows plus rows still owed equal to the goal |
| CsvReading.ParseDelimited | frontend/src/components/UploadEnrichModal.tsx:86-123 | the whole reader: an error below two rows, otherwise headers and one record per further row of that reading |
| CsvReading.NoQuotesSimpleForm | frontend/src/components/UploadEnrichModal.tsx:86-115 | on every text without a double quote the loop equals: normalise newlines, split on LF, split on the delimiter, trim, drop blank rows |
| CsvReading.StoredRowsAreClean | frontend/src/components/UploadEnrichModal.tsx:103-115 | on any text at all every stored cell is trimmed and free of CR and every stored row has a non-empty cell |
| CsvReading.KeepRowsAll | frontend/src/components/UploadEnrichModal.tsx:107-115 | dropping blank rows keeps the number of rows if and only if every row has a non-empty cell, and then changes nothing |
| CsvReading.RecordKeys | frontend/src/components/UploadEnrichModal.tsx:118-121 | a record has exactly the headers as keys |
| CsvReading.RecordValue | frontend/src/components/UploadEnrichModal.tsx:118-121 | under a header the record holds the value of that header's last column, empty when the row is too short |
| CsvReading.TableCell | frontend/src/components/UploadEnrichModal.tsx:115-122 | with distinct headers, record k holds under header j the cell at row k + 1, column j |
| CsvPrinters.DecodeQuoted | frontend/src/api.ts:181-184 | unquoting a printed cell gives its text back, whatever follows it except another quote |
| CsvPrinters.PiecesJoin | frontend/src/api.ts:188-192 | cutting a join of quoted cells at the separator gives the cells back: no separator inside a cell is taken for one |
| CsvPrinters.UnixEscape | frontend/src/api.ts:181-184 | doubling quotes and normalising newlines commute |
| CsvPrinters.ReadPrintedRow | frontend/src/api.ts:190-191 | a printed row read with its own delimiter gives its cells, trimmed |
| CsvPrinters.ReadMisprintedRow | frontend/src/api.ts:190-191 | read with any other delimiter a printed row is a single cell holding the joined text |
| CsvPrinters.CrLfIsNewline | frontend/src/components/UploadEnrichModal.tsx:87 | CR LF anywhere in a text counts as one line feed |
| CsvPrinters.CrIsNewline | frontend/src/components/UploadEnrichModal.tsx:87 | and so does a CR without a line feed behind it |
| CsvPrinters.RowGrows | frontend/src/api.ts:190-191 | a printed row is its quoted cells behind one another with commas between |
| CsvPrinters.UploadGrows | frontend/src/api.ts:189-201 | an uploaded file is a byte-order mark and its printed rows, each ended by CR LF |
| UploadDelimiter.CommaDetected | frontend/src/api.ts:186-201 | the reader detects comma in an upload if and only if comma wins in the header cells: on the part of them printed on the first line, commas inside and between cells are at least as many as semicolons and as TABs |
| UploadDelimiter.ImportRoundTrip | frontend/src/api.ts:181-201 | for every rectangular grid of arbitrary cells: the reader gives the printed grid back (newlines normalised, cells trimmed, blank rows dropped) if and only if the grid has one column or comma wins in its header |
| UploadDelimiter.PlainHeaderWins | frontend/src/api.ts:188-190 | in headers without delimiters and newlines comma always wins |
| ImportUpload.Distinct | frontend/src/api.ts:188 | the header list has exactly the keys given, each once |
| ImportUpload.FirstPlaces | frontend/src/api.ts:188 | headers come in the order of their keys' first places |
| ImportUpload.EveryKeyIsAColumn | frontend/src/api.ts:188 | every key of every record is a column |
| ImportUpload.EveryColumnIsAKey | frontend/src/api.ts:188 | every column is a key of some record |
| ImportUpload.CellTexts | frontend/src/api.ts:181-184 | what is printed of a value: nothing for a missing one, a text as it is, a list with `; ` between its items |
| ImportUpload.LookupFinds | frontend/src/api.ts:191 | a record gives the value of each key of its own and nothing for any other |
| ImportUpload.UploadAccepted | frontend/src/api.ts:187-189 | an upload is refused if and only if there is no record with a key |
| ImportUpload.UploadReadBack | frontend/src/api.ts:186-201 | the text of an accepted upload parses to the tidied grid of headers and record rows, less blank rows, if and only if there is one header or comma wins among the headers; and to the whole tidied grid if and only if, moreover, every row has a visible cell |
| ImportUpload.RecordsReadBack | frontend/src/api.ts:186-201 | from records to text to records: when comma wins, every row has a visible cell and headers stay distinct, record k holds under header j the tidied text of record k's value |
| ImportUpload.PlainKeysReadBack | frontend/src/api.ts:186-201 | with keys free of delimiters and newlines an accepted upload is always read back |
| ImportUpload.NormalKeyPlain | frontend/src/components/UploadEnrichModal.tsx:70-77 | every header in the browser's normal form is such a key |
| ImportUpload.UploadMisread | frontend/src/api.ts:186-201 | an upload that is accepted and not read back: one record with the keys `;;` and `a` |
| LeadExport.HandleExport | frontend/src/components/ExportModal.tsx:32-54 | the loop that pushes optional columns builds the file of the specification: BOM, bare header, LF, semicolons, cells quoted without doubling |
| LeadExport.BareCellSurvives | frontend/src/components/ExportModal.tsx:39-50 | an exported cell reads back as its text and leaves the reader outside quotes if and only if it holds no double quote; exactly then it equals the correctly quoted cell |
| LeadExport.HeaderLine | frontend/src/components/ExportModal.tsx:32-35 | for every choice of columns the header line makes the reader detect `;` and parses to the header |
| LeadExport.ExportRoundTrip | frontend/src/components/ExportModal.tsx:32-54 | for every list of leads without a double quote and every choice of columns the reader detects `;` and returns the header and every lead's cells, newline-normalised and trimmed |
| LeadExport.OneRecordPerLead | frontend/src/components/ExportModal.tsx:32-54 | for leads without double quotes, reading the export back gives one record per lead if and only if every lead has a visible cell; with the intent columns every lead has one |
| LeadExport.BlankLeadLost | frontend/src/components/ExportModal.tsx:32-54 | a blank lead exported alone without the intent columns is read as a file without records |
| ExportQuotes.CellsReadBack | frontend/src/components/ExportModal.tsx:39-50 | one row of cells is read back, trimmed, if and only if no cell but the last holds a quote and the last holds none or a single one at its end |
| ExportQuotes.QuotedCellRead | frontend/src/components/ExportModal.tsx:39-50 | a bare cell with a quote that ends the file or stands before a semicolon can come back only at the file's end, with that one quote at its own end |
| ExportRows.QuotedRowEnd | frontend/src/components/ExportModal.tsx:39-54 | a bare cell at a row's end can come back together with the first cell of the next row only if it holds no quote |
| ExportRows.RowThenRows | frontend/src/components/ExportModal.tsx:39-54 | a row and the rows behind it are read as expected if and only if the row holds no quote and the rows behind it are read as expected on their own |
| ExportRows.RowsReadBack | frontend/src/components/ExportModal.tsx:39-54 | rows of two cells or more, each with a visible one, are read back trimmed if and only if no cell holds a quote, except that the very last one may end with a single one |
| ExportRows.BlankRowHides | frontend/src/components/ExportModal.tsx:39-54 | with a blank row among them three rows are read back although the first holds a quote |
| ExportRows.LeadsReadBack | frontend/src/components/ExportModal.tsx:32-54 | for every list of leads with any texts and any choice of columns in which each lead has a visible cell: the reader returns the header and every lead's tidied cells if and only if no cell holds a quote, except that the very last one of the file may end with a single one |
| ExportRows.IntentLeadsReadBack | frontend/src/components/ExportModal.tsx:32-54 | the same for every list of leads whatsoever when the intent columns are chosen |
| ExportRows.OneLeadReadBack | frontend/src/components/ExportModal.tsx:32-54 | for one lead, blank or not: the file is read back if and only if its cells meet that condition |
| ExportRows.QuotedNameLost | frontend/src/components/ExportModal.tsx:39-50 | a list in which some lead's name holds a quote is not read back |
| LeadRecords.LeadRecord | frontend/src/components/ExportModal.tsx:32-54 | for every list of leads that is read back and every choice of columns: under each header the record of a lead holds the attribute that the table of columns names for it, tidied |
| LeadRecords.LeadFileGrows | frontend/src/components/ExportModal.tsx:32-54 | the file is a byte-order mark and the header names, and each further lead adds a line feed and the quoted cells of its columns |
| SessionProtocol.StepKeeps | frontend/src/api.ts:74-179 | every step, of any call or refresh with any server answer, keeps the slot, starter and call invariants, and neither reopens a finished refresh nor forgets a call |
| SessionRuns.SingleFlight | frontend/src/api.ts:96-117 | in every reachable state at most one refresh is outstanding, and `refreshPromise` holds a refresh exactly from its start until its `finally` step, on all three outcomes |
| SessionRuns.SharedOutcome | frontend/src/api.ts:96-143 | over every run: calls that joined one refresh get the outcome that refresh closed with; a call has at most two fetches, the second only after a renewal; the retry of `request` carries the token that refresh returned even if `accessToken` changed meanwhile |
| SessionRuns.RefreshesAreDemanded | frontend/src/api.ts:96-117 | over every run refreshes started never exceed first attempts answered 401 plus session restores |
| SessionRuns.RunLength | frontend/src/api.ts:96-179 | a run's steps and the work still to do are at most nine per call made |
| SessionRuns.Progress | frontend/src/api.ts:96-179 | in every reachable state with an unfinished call or refresh some step other than a new call is possible |
| SessionRuns.RunsEnd | frontend/src/api.ts:96-179 | with finitely many calls every run ends, and a run that cannot go on has finished every call and emptied the slot |
| SessionHistory.TokenHeld | frontend/src/api.ts:74-117 | over every run, from its events alone: `accessToken` is the `access` of the last good refresh answer or successful login, and none after the last bad refresh answer or end of a logout |
| SessionHistory.FirstFetch | frontend/src/api.ts:119-134 | over every run the first fetch of a new call carries `Bearer` and that token when it is not empty and the caller gave no header; a logout without a token sends none |
| SessionHistory.CallHistory | frontend/src/api.ts:119-179 | over every run, from the answers alone: a call joins a refresh if and only if it restores the session or its first answer was 401 on a path that may renew; it retries if and only if that refresh renewed; and a finished call succeeded exactly when its last answer says so |
| SessionHistory.RefreshHistory | frontend/src/api.ts:96-117 | over every run a closed refresh has the outcome that its own answer and JSON ask for |
| SessionHistory.AboutTokensExact | frontend/src/api.ts:136 | the paths that never renew are those that hold `/auth/token` at some place |
| SessionTurns.RetryToken | frontend/src/api.ts:119-169 | over every run in which promise jobs are drained before the next completion: the second fetch of a call carries the token its refresh returned if and only if it is no blob request or that token is not empty |
| SessionTurns.TurnStepKeeps | frontend/src/api.ts:96-179 | every such step keeps that a renewed token stays the current one until the calls that waited for it have resumed |
| SessionTurns.TurnProgress | frontend/src/api.ts:96-179 | such scheduling never blocks an unfinished run |
| SessionTurns.EmptyRenewal | frontend/src/api.ts:161-169 | a run from the page load in which a refresh answers an empty token and the blob retry carries none |
| SessionClient.ApiClient.RefreshAccessToken | frontend/src/api.ts:96-117 | joins the refresh in the slot or starts one, and touches nothing else |
| SessionClient.ApiClient.StartCall | frontend/src/api.ts:239-263 | the entry segment of each kind of call is one step of the protocol |
| SessionClient.ApiClient.OnFirstResponse | frontend/src/api.ts:136-143 | a 401 on a path outside `/auth/token` joins a refresh, any other answer ends the attempt |
| SessionClient.ApiClient.OnRefreshed | frontend/src/api.ts:137-142 | after the refresh: throw, resolve, or issue the one retry |
| SessionClient.ApiClient.OnContinue | frontend/src/api.ts:239-263 | login sets the token after a success with an object only, logout clears it in any case |
| SessionClient.ApiClient.OnRefreshPayload | frontend/src/api.ts:105-111 | a bad answer clears the token and rejects, JSON `null` rejects and leaves the token, a good answer sets it and resolves |
| SessionClient.ApiClient.OnFinally | frontend/src/api.ts:112-114 | empties the slot on every outcome |
| PollingProtocol.StepKeeps | frontend/src/pages/Enrichment.tsx:296-355 | every step of any overlap of pollers, with any server answer, keeps: starts separated by resets, one activation or timer per poller, armed timers known to their uncancelled closure, terminal pollers only synchronising |
| PollingRuns.StartedOnce | frontend/src/pages/Enrichment.tsx:307-314 | over every run each `startBatchEnrichment` comes after a detail answer that showed HYGIENE with a final status, and between two of one batch its id was reset |
| PollingRuns.OnePending | frontend/src/pages/Enrichment.tsx:300-354 | in every reachable state each poller has at most one pending call or timer |
| PollingRuns.CleanedUpStaysQuiet | frontend/src/pages/Enrichment.tsx:347-354 | a cleaned-up poller has no timer in the rest of the run |
| PollingRuns.TerminalTimer | frontend/src/pages/Enrichment.tsx:329-347 | over every run from a state in which a poller saw a terminal batch: it has a timer at some time if and only if at some time its own `refresh()` rejects before its cleanup |
| PollingRuns.TerminalIsLast | frontend/src/pages/Enrichment.tsx:329-337 | over every run: without such a rejection a poller that saw a terminal batch never has a timer again |
| PollingRuns.TerminalRearm | frontend/src/pages/Enrichment.tsx:329-347 | a single step arms that timer if and only if it is such a rejection |
| PollingRuns.TerminalRearmed | frontend/src/pages/Enrichment.tsx:329-347 | a run from the page load in which a poller that saw a terminal batch has a timer again |
| PollingRuns.NoRestart | frontend/src/pages/Enrichment.tsx:310-312 | over every run from a state in which a batch was started, even with a failed start call: it is not started again before its id is reset |
| PollingSteps.StartIssued | frontend/src/pages/Enrichment.tsx:307-314 | in any state a step issues a start of a batch if and only if it is the first detail answer of a live poller of that batch showing HYGIENE with COMPLETED, PARTIAL, FAILED or CANCELLED while the id is not in the set; then the id is in the set and the poll waits for the start |
| PollingSteps.StartedSet | frontend/src/pages/Enrichment.tsx:307-314 | an id is in the set after a step exactly when it was and is not reset, or a start of it was due |
| PollingSteps.PollerFlags | frontend/src/pages/Enrichment.tsx:300-354 | only its own cleanup cancels a poller, and it has seen a terminal batch exactly when one of its details showed one that is over |
| PollingSteps.Mounted | frontend/src/pages/Enrichment.tsx:296-303 | a mount opens one first poll unless there is no batch or the batch is over |
| PollingSteps.WaitsFor | frontend/src/pages/Enrichment.tsx:314-347 | which answers make a poll wait for the second detail and which for `refresh()` |
| PollingSteps.ExactlyOne | frontend/src/pages/Enrichment.tsx:300-354 | in every reachable state a poller that is neither cleaned up nor has seen a terminal batch has exactly one activation or timer: it never stops polling |
| EnrichmentPage.Page.OnCleanup | frontend/src/pages/Enrichment.tsx:350-354 | marks the closure cancelled and clears its timer |
| EnrichmentPage.Page.OnDetail | frontend/src/pages/Enrichment.tsx:302-329 | first detail: return when cancelled, start enrichment when due, otherwise judge the batch |
| EnrichmentPage.Page.ShowBatch | frontend/src/pages/Enrichment.tsx:329-347 | a terminal batch is synchronised, any other is polled again |
| EnrichmentPage.Page.EndOfPoll | frontend/src/pages/Enrichment.tsx:347 | one timer, unless the effect was cleaned up |
| Tables.GroupByOwner | src/leadstream/batches/exporter.py:317-341 | the filled dictionary answers, for every key, the key's rows in query order |
| Tables.LastByOwner | src/leadstream/batches/exporter.py:307-310 | the last row of a key wins |
| Tables.FirstByOwner | src/leadstream/batches/exporter.py:312-318 | the first row of a key wins |
| Tables.OwnedWhere | src/leadstream/batches/exporter.py:308-339 | asking for many keys at once and keeping one key's rows is asking for that key |
| CommercialJoin.EstablishmentsAgree | src/leadstream/batches/exporter.py:312-318 | the headquarters-first query over many companies agrees, company by company, with the query for one |
| CommercialJoin.RelationshipsAgree | src/leadstream/batches/exporter.py:320-329 | the newest-first query over many companies agrees with the query for one: stable sorting commutes with selection |
| CommercialJoin.NewestDescending | src/leadstream/batches/exporter.py:320-324 | that query is in descending order of date |
| CommercialRows.NewestKeeps | src/leadstream/batches/exporter.py:320-324 | and it holds every row it orders, each as often |
| CommercialRows.NewestPlaces | src/leadstream/batches/exporter.py:320-324 | it is the table read at all its places, newest first and in table order among equal dates |
| CommercialRows.RelationshipPlaces | src/leadstream/batches/exporter.py:320-329 | the relationships of a company are exactly the rows of the raw table with its owner and tenant, each once, newest first |
| CommercialRows.CompanyIsLast | src/leadstream/batches/exporter.py:307-310 | the company of an entity is the last row of the raw table with that owner and tenant, and there is none exactly when there is no such row |
| CommercialJoin.ContactsAgree | src/leadstream/batches/exporter.py:333-337 | the suppression filter over many owners agrees with the filter for one |
| CommercialJoin.NaiveJoinAppend | src/leadstream/batches/exporter.py:262-277 | the join of a concatenation is the concatenation of the joins, counters added |
| CommercialExporter.PrefetchAnswers | src/leadstream/batches/exporter.py:299-341 | on the ids of a chunk, and on every decision maker reached from them, the five dictionaries answer as the tables do |
| CommercialExporter.CommercialBatchExporter.Prefetch | src/leadstream/batches/exporter.py:299-341 | the five queries and the dictionary loops have that property |
| CommercialExporter.CommercialBatchExporter.LookUp | src/leadstream/batches/exporter.py:348-403 | the look-ups at the head of the item loop give what the tables hold for that item |
| CommercialExporter.CommercialBatchExporter.EmitDecisionMakers | src/leadstream/batches/exporter.py:405-498 | one row per decision maker and the counters, equal to the join's rows for the item |
| CommercialExporter.CommercialBatchExporter.EmitCompany | src/leadstream/batches/exporter.py:499-546 | one company row and its contact count |
| CommercialExporter.CommercialBatchExporter.EmitItem | src/leadstream/batches/exporter.py:348-546 | the body of the item loop adds exactly the join's report for the item |
| CommercialExporter.CommercialBatchExporter.ProcessChunk | src/leadstream/batches/exporter.py:289-548 | a chunk's rows and counters are those of the naive join over the chunk |
| CommercialExporter.CommercialBatchExporter.GenerateFile | src/leadstream/batches/exporter.py:249-277 | for every item list, all table contents and every chunk size of at least 1, the lines written and the four totals are those of the naive per-item join over all selected items |
| CommercialExporter.SanitizedCell | src/leadstream/batches/exporter.py:64-77 | no written cell starts with a formula character, sanitising twice is sanitising once, and only an apostrophe and outer white space are ever added or removed |
| CommercialRows.RowsOfItem | src/leadstream/batches/exporter.py:402-408 | from the raw tables: at decision-maker level an item with a known company that has relationships gets one row for each of them, newest first, showing that person, and counts as many; any other item gets one row that names nobody and counts none |
| CommercialRows.RowsInOrder | src/leadstream/batches/exporter.py:262-277 | the rows of an export are those of its items, item behind item |
| CommercialRows.DecisionMakersCounted | src/leadstream/batches/exporter.py:343-408 | for every list of items the total is the number of relationship rows of their known companies |
| CommercialRows.ContactsCounted | src/leadstream/batches/exporter.py:460-513 | for every list of items the total of direct contacts is the number of rows whose person or company has a contact of the tenant that is not suppressed |
| CommercialCells.SelectedPlaces | src/leadstream/batches/exporter.py:254-258 | the exported items are exactly those with a status asked for, all of them when none is, in their order |
| CommercialCells.ItemColumns | src/leadstream/batches/exporter.py:348-400 | every row of an item shows under each registry and processing column the text that column promises: address, activity, company, number, status, sources, date and the profile addresses of the raw table |
| CommercialCells.DecisionMakerColumns | src/leadstream/batches/exporter.py:411-490 | row k of an item shows under each decision-maker column the data of relationship k and the first LinkedIn profile of its person |
| CommercialCells.DecisionMakerLine | src/leadstream/batches/exporter.py:438-459 | line type and WhatsApp mark are those of the first contact that may be called, of the person or else of the company; the mark is SIM for a WhatsApp contact or one marked as such |
| CommercialCells.CompanyLine | src/leadstream/batches/exporter.py:503-546 | in a company row only the kind of the contact decides the mark |
| CommercialCells.CellAt | src/leadstream/batches/exporter.py:113-145 | cell k of a line is the sanitised field of column k |
| CommercialProperties.CountersAddUp | src/leadstream/batches/exporter.py:249-277 | companies equals the items, rows equals decision makers plus company-only items, rows is at least companies, direct contacts is at most rows; on every prefix, so at every chunk border |
| CommercialProperties.FirstServingIsFirst | src/leadstream/batches/exporter.py:333-337 | the contact picked for an owner and channel is the first row of the raw table of that owner and tenant that is not suppressed and fits |
| CommercialProperties.DecisionMakerChannels | src/leadstream/batches/exporter.py:411-463 | each channel of a decision-maker row is the person's first usable contact if there is one, otherwise the company's first, otherwise empty; quality is ALTA when both were found and MEDIA otherwise |
| CommercialProperties.CompanyChannels | src/leadstream/batches/exporter.py:499-546 | a company row shows the company's first usable contacts, and quality is BASICA exactly when there is none; without an entity all channels are empty |
| CommercialProperties.NothingSuppressed | src/leadstream/batches/exporter.py:333-335 | in every emitted row, of any list of items, the cells of each channel are empty or value and status of one fitting contact of the tenant that is not suppressed |
| CommercialProperties.HeadquartersChosen | src/leadstream/batches/exporter.py:312-318 | the chosen establishment is one of the company's, there is one if the company has any, and it is a headquarters whenever the company has one |
| ExportKey.SortOrders | src/leadstream/batches/exporter.py:155-156 | sorting yields an ordered sequence with the same multiset |
| ExportKey.KeyText | src/leadstream/batches/exporter.py:155-157 | the key is batch, sorted columns, sorted statuses, level and timestamp, with colons and commas between |
| ExportKey.OrderedUnique | src/leadstream/batches/exporter.py:155-156 | an ordered sequence is determined by its multiset |
| ExportKey.KeyIgnoresOrder | src/leadstream/batches/exporter.py:148-158 | the key string is unchanged by any reordering of columns or statuses |
| ExportKey.KeysAlike | src/leadstream/batches/exporter.py:148-158 | any two requests: equal keys if and only if their five parts cut at colons agree |
| ExportKey.JoinedAlike | src/leadstream/batches/exporter.py:155-156 | two lists are joined to one text if and only if they have the same pieces |
| ExportKey.KeyCollides | src/leadstream/batches/exporter.py:148-158 | requests without colons before the timestamp: equal keys if and only if batch, level and timestamp are equal and the sorted columns cut at commas are equal, and the statuses too |
| ExportKey.KeyIdentifies | src/leadstream/batches/exporter.py:148-158 | for requests without colons before the timestamp and with non-empty names free of commas: equal keys if and only if same batch, column multiset, status multiset, level and timestamp |
| ExportKey.CommaCollides | src/leadstream/batches/exporter.py:155-157 | one column `A,B` and two columns `A` and `B` have one key |
| ExportKey.CommaDistinct | src/leadstream/batches/exporter.py:155-157 | one column `B,A` does not have the key of the columns `A` and `B` |
| CheckDigits.CpfVerdict | frontend/src/pages/Enrichment.tsx:103-131 | the verdict is about all digits of the text; a CPF is accepted if and only if they are eleven, not all equal, with both check digits those of the digits before them |
| CheckDigitSums.CpfAccepted | frontend/src/pages/Enrichment.tsx:103-131 | the same with sums by position: digit i counts 10 - i, then 11 - i, so the first check digit counts 2 |
| CheckDigitSums.CpfReason | frontend/src/pages/Enrichment.tsx:103-131 | a rejected CPF is given the reason of the first test that fails, with the digit expected and the digit found |
| CheckDigitSums.CpfExample | frontend/src/pages/Enrichment.tsx:103-131 | 52998224725 is accepted |
| CheckDigits.CpfSingleErrors | frontend/src/pages/Enrichment.tsx:103-131 | a text that differs from an accepted CPF in one place is accepted if and only if the new character is a digit, not all digits are equal, and it is one of the listed slips at index 0 or 5, given the residues |
| CheckDigits.CpfDistance | frontend/src/pages/Enrichment.tsx:103-131 | two accepted CPFs that differ in one position differ at index 0 by 1 or at index 5 by 2 or 9 |
| CheckDigits.CpfSwaps | frontend/src/pages/Enrichment.tsx:103-131 | swapping two unequal neighbours of the base is accepted if and only if they differ by 1 in the direction the residues allow |
| CheckDigits.CnpjVerdict | frontend/src/pages/Enrichment.tsx:75-101 | a CNPJ is accepted if and only if its canonical form has twelve alphanumerics, not all equal, and two matching check digits |
| CheckDigitSums.CnpjAccepted | frontend/src/pages/Enrichment.tsx:75-101 | the same with sums by position: counted from the last one, weights run from 2 to 9 and start again |
| CheckDigitSums.CnpjReason | frontend/src/pages/Enrichment.tsx:75-101 | a rejected CNPJ is given the reason of the first test that fails, with the digit expected and the digit found |
| CheckDigits.CnpjDigitsUnique | frontend/src/pages/Enrichment.tsx:67-101 | every base has exactly one pair of check digits that is accepted |
| CheckDigits.CnpjSingleErrors | frontend/src/pages/Enrichment.tsx:75-101 | a text that differs from an accepted CNPJ in one place is accepted if and only if the new character is allowed there, the base is not repeated, and the values are congruent modulo 11 or it is one of the listed slips at index 0, 4 or 8 |
| CheckDigits.CnpjDistance | frontend/src/pages/Enrichment.tsx:75-101 | two accepted CNPJs that differ in one position: congruent values, or +-2 modulo 11 at index 0 or 8, or +-5 modulo 11 at index 4 |
| CheckDigits.CanonicalIdempotent | frontend/src/pages/Enrichment.tsx:75-77 | stripping and upper-casing twice is doing it once |
| CheckDigitSums.CanonicalParts | frontend/src/pages/Enrichment.tsx:75-77 | the canonical form of a text is that of its parts, one behind the other |
| CheckDigitSums.CanonicalCharacter | frontend/src/pages/Enrichment.tsx:75-77 | of one character it is that character if it is a digit or capital, its capital if it is a small letter, and nothing otherwise |
| CheckDigitSums.FormatLayout | frontend/src/pages/Enrichment.tsx:133-136 | where the points, the slash and the dash stand in a formatted number |
| CheckDigits.FormatRoundTrip | frontend/src/pages/Enrichment.tsx:133-136 | the preflight of a formatted number gives back the same fourteen characters and accepts it exactly when they are acceptable |
| CheckDigits.ServerAndBrowser | src/leadstream/entities/normalization.py:17-36 | which canonical numbers the server accepts: those without a letter that the browser accepts, and repeated bases that are not fourteen equal digits |
| CheckDigits.OnlyBrowserAccepts | src/leadstream/entities/normalization.py:17-36 | a number with a letter that the browser accepts and the server rejects |
| CheckDigits.OnlyServerAccepts | src/leadstream/entities/normalization.py:17-36 | a number with a repeated base that the server accepts and the browser rejects |
| BatchPreflight.Preflight | frontend/src/pages/Enrichment.tsx:242-266 | the loop with its map of seen forms: valid and invalid are the first occurrences, split by verdict and in order; valid, invalid, duplicates and entries that strip to nothing add up to the entries read |
| BatchPreflight.EntriesOfParts | frontend/src/pages/Enrichment.tsx:246-249 | a comma, a semicolon or a line feed parts the entries of what stands before it from those behind it |
| BatchPreflight.EntriesReadBack | frontend/src/pages/Enrichment.tsx:246-249 | entries joined by any of the three are read back |
| BatchPreflight.FirstOccurrencesPlaces | frontend/src/pages/Enrichment.tsx:251-258 | the first occurrences are exactly the entries with a canonical form that no entry before them has, in order |
| BatchPreflight.AcceptedPlaces | frontend/src/pages/Enrichment.tsx:259-260 | valid are exactly the entries whose canonical form is an acceptable CNPJ, in order |
| BatchPreflight.RejectedPlaces | frontend/src/pages/Enrichment.tsx:261-263 | all others are reported, in order, with their canonical form, its length and the reason |
| BatchPreflight.StrippedExact | frontend/src/pages/Enrichment.tsx:253 | the entries left out are those without a canonical form |
| BatchPreflight.FirstOccurrencesForms | frontend/src/pages/Enrichment.tsx:252-262 | every non-empty canonical form of the entries, and no other, is the form of a first occurrence |
| BatchPreflight.FirstOccurrencesDistinct | frontend/src/pages/Enrichment.tsx:252-262 | first occurrences have distinct canonical forms |
| BatchPreflight.UploadedRows | frontend/src/pages/Enrichment.tsx:453 | the uploaded rows are pairwise distinct and all pass the check |
| BatchPreflight.PreflightIdempotent | frontend/src/pages/Enrichment.tsx:453-454 | preflighting the uploaded rows again keeps each and finds no error and no duplicate |
| HeaderForms.HeadersAgree | frontend/src/components/UploadEnrichModal.tsx:70-77 | on every ASCII text the browser's header form (before aliases) equals the server's, trimmed or not, and is empty or `[a-z0-9]+` words joined by single underscores |
| HeaderForms.HeaderIdempotent | src/leadstream/batches/hygiene.py:48-51 | both header forms are idempotent on ASCII text |
| HeaderForms.TrimmedCore | src/leadstream/batches/hygiene.py:48-51 | trimming first, the browser's way or the server's, makes no difference to the server's form |
| HeaderForms.NormalFixed | src/leadstream/batches/hygiene.py:48-51 | every text in normal form is a fixed point of both |
| HeaderForms.CaseAlike | src/leadstream/batches/hygiene.py:48-51 | headers that differ in the case of ASCII letters only have the same form |
| HeaderForms.UpperCaseHeader | frontend/src/components/UploadEnrichModal.tsx:70-77 | `CNPJ` has the form `cnpj` |
| HeaderForms.FormJoins | src/leadstream/batches/hygiene.py:48-51 | any character that is no letter or digit between two forms becomes one underscore |
| HeaderForms.TwoWordHeader | src/leadstream/batches/hygiene.py:48-51 | `Razao Social` has the form `razao_social` |
| Hygiene.CanonicalizeHeaders | src/leadstream/batches/hygiene.py:54-60 | each field gets the trimmed value of its first column, and no other field is present |
| HygieneResults.AliasTable | src/leadstream/batches/hygiene.py:19-36 | the sixteen aliases with their fields, and no other header names a field |
| HygieneResults.ValuesFirst | src/leadstream/batches/hygiene.py:54-60 | the value of a field is that of the first column with a header of the field, trimmed |
| Hygiene.NameSettles | src/leadstream/batches/hygiene.py:63-64 | a normalised name is trimmed and its own normal form |
| HygieneResults.NameParts | src/leadstream/batches/hygiene.py:63-64 | white space between two parts of a name becomes one blank, and none beside a blank part |
| HygieneResults.SolidName | src/leadstream/batches/hygiene.py:63-64 | a name without white space stays as it is |
| Hygiene.CnpjSettles | src/leadstream/entities/normalization.py:21-36 | an accepted CNPJ is its own normal form |
| Hygiene.PhoneSettles | src/leadstream/entities/normalization.py:79-92 | an accepted telephone number is its own normal form |
| HygieneResults.PhoneExact | src/leadstream/entities/normalization.py:79-92 | which digits give a valid national number: the number with country code 55, or without it if it does not itself start with 55, each with or without a leading 00 |
| Hygiene.NormalizeRow | src/leadstream/batches/hygiene.py:67-126 | the loop over the six fields computes the specification: normalised fields, rules, issues, identity and state |
| HygieneResults.HygieneReport | src/leadstream/batches/hygiene.py:67-126 | for every row and all normalisers: a field is normalised exactly when its value is there and its normaliser returns a text; the rules name, in field order, exactly the fields whose text changed, the issues exactly those whose normaliser raises or returns nothing; the identity is the first of five fields that is normalised, and its lack is an issue |
| HygieneResults.HygieneStateExact | src/leadstream/batches/hygiene.py:96-126 | INVALID if and only if some value is refused or no identifier remains, otherwise CORRECTED if and only if some text changed, otherwise UNCHANGED |
| HygieneResults.AcmeCorrected | src/leadstream/batches/hygiene.py:67-126 | the row with `ACME   Ltda` under `Empresa` is CORRECTED by the one rule for legal names |
| HygieneProperties.NormalizedMeaning | src/leadstream/batches/hygiene.py:80-94 | every normalised field is non-empty and is its normaliser's result on the row's first column of that field |
| HygieneProperties.ColumnOrder | src/leadstream/batches/hygiene.py:54-126 | a row whose columns are permuted by any bijection that keeps the order of the columns of each field gives the same result |
| HygieneProperties.SwapColumns | src/leadstream/batches/hygiene.py:54-60 | swapping two neighbouring columns that are not of one field never changes the result |
| HygieneProperties.HygieneAgain | src/leadstream/batches/hygiene.py:67-126 | hygiene of its own output keeps every field but `domain` and `trade_name` and applies no rule; it reports UNCHANGED, no issues and the same identity if and only if the row's identifier was not its domain |
| HygieneProperties.DomainForgotten | src/leadstream/batches/hygiene.py:67-126 | a row identified by its domain whose output has no identifier and is INVALID |
| HygieneProperties.OwnNormalizersSettle | src/leadstream/entities/normalization.py:21-92 | the repository's CNPJ, telephone and name normalisers meet the assumption of that theorem |
| LeadSearch.HydrateMeaning | src/leadstream/analytics/lead_search.py:160-201 | rehydration gives the table's entity for each id, in the id list's order, whatever order the table has |
| LeadSearch.PageShows | src/leadstream/analytics/lead_search.py:204-212 | the entities of a page are table rows for the ids of that page, in their order, none left out that exists |
| LeadSearch.PageComplete | src/leadstream/analytics/lead_search.py:204-212 | when every id has a row, entity k of page p is that of id (p - 1) * size + k, and every page but the last is full |
| LeadSearch.PageLinks | src/leadstream/analytics/lead_search.py:207-224 | a next page is named exactly when entries remain, a previous one exactly behind page 1 of a result that is not empty |
| LeadSearch.MoreRemain | src/leadstream/analytics/lead_search.py:207-223 | page p is below the page count exactly when entries remain after its end |
| LeadSearch.FollowAll | src/leadstream/analytics/lead_search.py:204-227 | following `next_page` from page 1 visits exactly `total_pages` pages (one when there is no result), and their entities together are the whole ordered result |
| LeadSearch.NoneTwice | src/leadstream/analytics/lead_search.py:201 | with distinct ids no entity comes twice |
| LeadSearch.PreviousUndoesNext | src/leadstream/analytics/lead_search.py:223-224 | `previous_page` undoes `next_page`, and `next_page` undoes `previous_page` within the page count |

## Left out

- LeadsReadBack: lists in which some lead is blank among the chosen columns; for these the round trip is proved without quotes (ExportRoundTrip), and BlankRowHides shows that the condition would be another one.
- CanonicalizeHeaders: headers outside ASCII are not decomposed, so an accented header such as `razão_social` is not recognised here as it is on the server.
- NormalizeRow: the same headers.
- HeadersAgree: ASCII text only; Unicode decomposition, combining marks and case folding outside ASCII are not part of this model.
- CnpjVerdict: upper-casing is that of ASCII letters; `toUpperCase` also turns some other letters into ASCII ones.
- ServerAndBrowser: `\d` on the server also matches digits outside ASCII; here digits are `0` to `9`.
- HygieneAgain: the e-mail normaliser is assumed to return trimmed fixed points of itself, and the domain normaliser is arbitrary; normalize_email and normalize_domain rest on Django and IDNA code that is not part of this model.
- RunsEnd: every fetch is taken to be answered or to reject at some time; a server that never answers leaves a run unfinished but never blocks its next step.
- RetryToken: a completion is processed only when no promise job is left, as browsers do; within such a turn the jobs may come in any order, and code of the application may start calls at any time.
- NotifyUnauthorized: clears the token; the `auth:unauthorized` event it dispatches has no listener in this model.
- ApiClient, Page: the other segments (first fetch, second answer, bodies, timers, mounts) verify against the same protocol steps and have no row of their own.
- KeyCollides: texts with colons before the timestamp; KeysAlike gives their condition as equality of the pieces of all five parts.
- GenerateFile: Python's csv writer, the file and its storage are not part of this model; a row is the list of sanitised cells handed to the writer.
- LookUp: values of `normalized_data` and `original_data` are texts; other JSON values are not modelled.
- Queries: the tables are ordered sequences; a query without ORDER BY keeps the table's order, ties keep it too, and the tables do not change during an export.
- HygieneResult: the fingerprint is the identity pair that would be hashed; SHA-256 is not modelled, neither here nor for the export key.
- SearchLeads: the filters of `_entity_query` are not modelled, the ordered id list is an input; `math.ceil` of a float quotient is integer ceiling division.
- Characters are Unicode scalar values; lone surrogate code units of JavaScript texts do not occur.
- JavaScript moves integer-like keys to the front of an object; a record's keys are taken in the order given, and read records are maps.
- `String(value)` of numbers and booleans in an upload is taken as text, and `intentScore` is its decimal text.
- The aliases that `normalizeHeader` applies after the normal form; the reader takes the header function as a parameter.
- FormData, idempotency keys, downloads, timers' lengths, messages and React rendering.
- Wallet ledger, chunk leases, provider runs and the CRM outbox: other subsystems, with rules of their own.
- Views, serializers, settings, admin pages and the list exporter: they would add only easy members.
