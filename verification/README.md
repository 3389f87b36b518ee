# Odoo to Oracle backend: a Dafny model of its stateful core

The backend copies point-of-sale orders from Odoo to Oracle Fusion, keeps its own backup tables and reconciles the two
sides. This project models the parts of it that hold state, run concurrently or do money arithmetic, and proves what
they are for. `dafny verify dfyconfig.toml` checks all of it.

Tables are maps, remote calls are values a caller supplies or choices left open, money is exact reals rounded half up
to two places, and SHA-256 is taken to be injective. Code that changes fields step by step is a class or a method with
loops, proved against a specification function; what the code promises is then proved about that function.

| file | what it models |
|---|---|
| `CircuitBreaker`, `CircuitRuns`, `CircuitHistory`, `CircuitLimits`, `CircuitOneAtATime` | the circuit breaker: its hash fields, every interleaving of overlapping calls, the fields read off the history, how far the premises can be weakened, and calls one at a time |
| `LaneScheduler` | the bounded-concurrency helper |
| `Paging` | the pagination loop of the Odoo pull |
| `BulkUpsert`, `PerOrderRaces`, `FallbackOutcomes`, `FallbackSchedules`, `OrderStore` | storing fetched orders one by one, on several lanes at once, in bulk, or batch by batch with fallback |
| `ItemImport`, `ItemUpserts` | folding item-master rows that share a key, and upserting the rest concurrently |
| `BatchUpdate` | the atomic update of bank and cash account ids, with backup, dry run and rollback |
| `CreditMemo`, `Idempotency` | posting refunds as credit memos, and the audit log that keeps a refund from being posted twice |
| `Csv` | CSV export and the regex-driven parser |
| `Reconciliation` | classifying one order against its Oracle side |
| `Rollup`, `Breakdown` | rolling orders up per store, day or both, shared invoices counted once per group |
| `ReceiptNumbers`, `Tender`, `TenderEntries`, `TenderWindow` | recovering tenders from receipt numbers, and takings against receipts per tender |
| `Watermark` | the in-store backup: paging, and the point in time it continues from |
| `Wrappers`, `Text`, `Money`, `Sums`, `Grouping` | options, trimming and folding of text, rounding, finite sums, splitting by key |

## Where the code keeps less than it seems to

Each of these is a lemma with the exact condition, or with an input that shows the failure.

- The breaker's bound on running probes holds, over all runs whose calls end in less than some limit, exactly up to the
  recovery time as that limit (or where no probe is allowed at all); beyond it twice as many can run. A manual reset
  leaves the running probes running, and they can later close a circuit that has opened again without recovery, exactly
  if the fields showed the circuit half-open with all `halfOpenRequests` probes in flight.
- An Odoo endpoint that ignores `offset` delivers only its head if it hides the total or refuses a limit that large. When
  no page can hold a record, because the page size or the endpoint's largest limit is zero, the loop ends only if the
  total is advertised as zero, or if none is advertised and the page size is positive.
- The bulk upsert deletes the children of an order that embeds none, the per-order upsert keeps them. The two agree
  exactly when no such order had children to lose.
- A batch the bulk path rejects is upserted order by order on several lanes at once. With duplicates of an order in it
  the last one need not win: two lanes can both look a new order up before either inserts it, the unique index then
  refuses the second insert, and the first duplicate's row stays; and any duplicate can be written last. Every
  interleaving ends as a loop over the batch would exactly if there is one lane, or duplicates of an order agree, in
  columns and in what children they embed if they embed any, and no new order can lose its children. It can lose them
  exactly if, among its duplicates, one of the first `lanes` embeds none, and those that embed some are all among the
  first `lanes` too: all of them can then be looked up before the one that embeds none is inserted, and refused.
- Folding item rows keeps their conflict key, for all rows over a set of columns, exactly if none of ITEM_ID, SKU, HANDLE
  and REGION is among them in both spellings.
- A register id of zero counts as present in the query and in the dry run but is never written, so a dry run that skips
  nothing predicts a successful live run exactly when no id to be written is zero. A rollback after the commit that
  fails on some but not all rows leaves a mixture.
- A refund row is set to synced before its audit row is written. A credit memo that went unrecorded is posted again by
  the next push of its order that gets as far as asking Oracle; and a row is left synced without an audit row exactly if,
  after it was updated, the audit row is not written and the update to failed does not take effect either. A push whose
  update to failed throws ends the batch it is in.
- The CSV parser does not advance past an empty first cell, splits at every newline and trims every cell, so export and
  import undo each other exactly when every row's first cell is non-empty and no cell holds a newline or surrounding
  white space.
- The match rate rounds to 100 with one problem among 20,000 comparable orders, the most a scan takes.
- The comment on the line check speaks of Oracle having fewer lines; the code reports any difference, and so does the
  model.
- Receipts are matched against 200 transaction numbers at a time, so "longest match wins" holds only within one such
  part: a receipt in which numbers of two parts occur is collected twice, with its money.
- The list of unmapped tenders is described as tenders Odoo used; by the exact condition proved it also names a tender
  that has nothing but fee receipts.
- The in-store watermark moves past an order that was fetched but could not be written. The note that `backupOrders`
  never moves it holds only when overrides are passed: without them it is a scheduled run.

## Model

| member | source | states |
|---|---|---|
| CircuitBreaker.CircuitStore.Admit | packages/backend/src/clients/circuit-breaker.service.ts:68-105 | The part of `execute` before the call: who is rejected, who becomes a probe, and the fields of that one circuit afterwards; no other circuit changes |
| CircuitBreaker.CircuitStore.Finish | packages/backend/src/clients/circuit-breaker.service.ts:107-143 | The part after the call, for success and failure of probes and ordinary calls; no other circuit changes |
| CircuitBreaker.CircuitStore.IncrField | packages/backend/src/clients/circuit-breaker.service.ts:296-319 | Returns the counter plus the delta and stores exactly that |
| CircuitRuns.StepKeepsInv | packages/backend/src/clients/circuit-breaker.service.ts:68-144 | Each atomic admission, finish or reset keeps the invariant that ties the counter to the outstanding probes and the opening time to the outstanding calls |
| CircuitRuns.HalfOpenCountsItsProbes | packages/backend/src/clients/circuit-breaker.service.ts:68-144 | Over every interleaving of calls that end in strictly less than the recovery time: half-open, the counter is the number of running probes, nothing else runs, and never more than the limit |
| CircuitRuns.OpenEndsOnlyByRecovery | packages/backend/src/clients/circuit-breaker.service.ts:77-143 | If no reset met `halfOpenRequests` running probes, an open circuit is left, but for a reset, only by an admission at least the recovery time after its latest opening, and to half-open |
| CircuitHistory.FieldsShowTheHistory | packages/backend/src/clients/circuit-breaker.service.ts:77-144 | Over every sequence of events each stored field is read off the history: failures since the circuit closed or an ordinary call succeeded, probes passed and in flight since the latest turning point, when it last failed, and since when it is open; and so is what the next call is told |
| CircuitHistory.OpenSinceItsLatestOpening | packages/backend/src/clients/circuit-breaker.service.ts:124-137 | A circuit is open and timed from `at` exactly if `at` is the time of the latest failure of a probe, or failure that brought the count to the threshold, in whatever state it found the circuit, and nothing closed it or let it be tried since |
| CircuitHistory.TurnedAwayUntilRecovered | packages/backend/src/clients/circuit-breaker.service.ts:77-137 | After such a failure every call that enters less than the recovery time later is turned away, whatever else happens in between but a reset |
| CircuitLimits.BoundedExactlyUpToTheRecoveryTime | packages/backend/src/clients/circuit-breaker.service.ts:77-143 | For every setting: over all runs whose calls end in less than a limit, never more than `halfOpenRequests` probes run, exactly if none is allowed or the limit is at most the recovery time (a negative one counting as zero) |
| CircuitLimits.ResetIsSafeExactlyWhen | packages/backend/src/clients/circuit-breaker.service.ts:204-212 | After a manual reset an open circuit is left only by recovery, whatever follows, exactly if the stored fields did not show it half-open with all `halfOpenRequests` probes, one or more, in flight |
| CircuitOneAtATime.FieldsRefineTheMachine | packages/backend/src/clients/circuit-breaker.service.ts:77-143 | Any history of calls run one at a time gets from the hash fields the answers of the machine closed(f), open(t), half-open(k) |
| CircuitOneAtATime.OpensExactlyAtTheThreshold | packages/backend/src/clients/circuit-breaker.service.ts:124-141 | From any point at which the circuit is closed with no failure counted, it leaves closed exactly if some failures in a row reach the threshold; until then the count is the current run of failures |
| CircuitOneAtATime.CountsSinceTheLastSuccess | packages/backend/src/clients/circuit-breaker.service.ts:107-141 | Over any history: whenever closed the count is below the threshold; after a success or a close it starts anew, and from there the circuit opens exactly on the threshold-th failure in a row |
| CircuitOneAtATime.ClosesAfterExactlyTheProbes | packages/backend/src/clients/circuit-breaker.service.ts:77-117 | After recovery it stays half-open until exactly `halfOpenRequests` probes succeeded, then is as new |
| CircuitOneAtATime.OneFailedProbeReopens | packages/backend/src/clients/circuit-breaker.service.ts:124-141 | One failed probe opens it again, timed from the end of that probe |
| LaneScheduler.MapWithConcurrency | packages/backend/src/odoo-backup/odoo-backup.service.ts:98-119 | Whatever worker resolves next: one worker call per index in order, `onEach` gets 1 to n in order, and the most workers ever running is the smaller of the items and max(1, concurrency) |
| LaneScheduler.LanesStayFull | packages/backend/src/odoo-backup/odoo-backup.service.ts:105-118 | At every point of every interleaving exactly as many workers run as the limit and the remaining items allow |
| LaneScheduler.AllLanesEndTogetherWithTheItems | packages/backend/src/odoo-backup/odoo-backup.service.ts:105-118 | No interleaving stops early or runs on: every lane has ended exactly when all items have resolved |
| Paging.PullAll | packages/backend/src/odoo-backup/odoo-backup.service.ts:1137-1342 | The loop ends and returns the leading records the endpoint can be made to give, each once and in order |
| Paging.EverythingArrivesExactlyWhen | packages/backend/src/odoo-backup/odoo-backup.service.ts:1137-1342 | All of the data arrives, within one round more than there are orders, exactly if `offset` is honoured, or the data fits the largest limit and either the total is advertised or one page holds it |
| Paging.LoopDeliversTheReach | packages/backend/src/odoo-backup/odoo-backup.service.ts:1137-1342 | For either kind of endpoint, how many leading records arrive |
| Paging.EndsExactlyWhen | packages/backend/src/odoo-backup/odoo-backup.service.ts:1161-1327 | For either kind of endpoint the loop ends exactly if a page can hold a record, or the total is advertised as zero, or none is advertised and the page size is positive |
| OrderStore.BackupTables.UpsertOrder | packages/backend/src/odoo-backup/odoo-backup.service.ts:1601-1638 | One order: its header keeps an existing id, and lines and payments are replaced only if it embeds some |
| OrderStore.BackupTables.BulkUpsertOrders | packages/backend/src/odoo-backup/odoo-backup.service.ts:1878-2095 | One transaction over the last duplicate of each id, or no change at all |
| PerOrderRaces.EveryInterleavingKeepsInv | packages/backend/src/odoo-backup/odoo-backup.service.ts:1601-1638 | In whatever order the database serves look-ups, header writes, refused inserts, lines and payments: no header is lost or changes its id, children point at their header, and each header and its children are as one of the order's duplicates wrote them |
| FallbackOutcomes.SettledIsRace | packages/backend/src/odoo-backup/odoo-backup.service.ts:1658-1674 | Once every lane has ended: one header per order of the batch, existing ids kept, columns and children each those of some duplicate |
| FallbackSchedules.OneLaneEndsAsTheLoop | packages/backend/src/odoo-backup/odoo-backup.service.ts:1658-1674 | On one lane the fallback is the loop over the batch |
| FallbackSchedules.AgreementIsEnough | packages/backend/src/odoo-backup/odoo-backup.service.ts:1658-1674 | On any number of lanes, if duplicates agree and no new order can lose its children, every interleaving ends as the loop |
| FallbackSchedules.AnyDuplicateCanPrevail | packages/backend/src/odoo-backup/odoo-backup.service.ts:1601-1638 | On two lanes or more, some interleaving ends with what any chosen order of the batch says, whichever of its duplicates it is |
| FallbackSchedules.DroppedChildren | packages/backend/src/odoo-backup/odoo-backup.service.ts:1601-1638 | If a duplicate of a new order that embeds none and all that embed some are in reach, some interleaving leaves the order without children |
| FallbackOutcomes.EveryInterleavingKeepsLaneInv | packages/backend/src/odoo-backup/odoo-backup.service.ts:1658-1674 | In every interleaving no more upserts run than there are lanes, and only an order that can run together with all its earlier duplicates can find its order missing and so be refused; one of those inserts it |
| FallbackSchedules.RacesAreHarmlessExactlyWhen | packages/backend/src/odoo-backup/odoo-backup.service.ts:1601-1674 | For every batch, consistent stored tables and number of lanes: every interleaving ends as the loop exactly if there is one lane, or duplicates agree and no new order can lose the children its duplicates embed |
| FallbackSchedules.TheFirstDuplicateCanStay | packages/backend/src/odoo-backup/odoo-backup.service.ts:1601-1638 | Two differing duplicates of a new order on two lanes: the first one's row and children can stay |
| OrderStore.BackupTables.PerOrder | packages/backend/src/odoo-backup/odoo-backup.service.ts:1658-1674 | The per-order path, as fallback or on its own, ends as some interleaving of its lanes does, every order saved or skipped, and none skipped on one lane or without duplicates |
| OrderStore.IdenticalDuplicatesAreSafe | packages/backend/src/odoo-backup/odoo-backup.service.ts:1658-1674 | A batch without duplicates, or with identical ones, comes to no harm on any number of lanes |
| OrderStore.BackupTables.PersistBatch | packages/backend/src/odoo-backup/odoo-backup.service.ts:1681-1697 | The bulk path when it commits, else what some interleaving of the per-order lanes leaves |
| OrderStore.BackupTables.PersistOrders | packages/backend/src/odoo-backup/odoo-backup.service.ts:1651-1702 | Whatever the batch size, lanes, interleaving and fallbacks: one header per order, existing ids kept, columns and children those of some duplicate; if each batch that falls back meets, whatever is stored, the condition under which races are harmless: last duplicate winning, children those of the last duplicate or, where it embeds none, nothing or what there was, and with nothing to lose what the sequential loop leaves |
| BulkUpsert.OneByOneEffect | packages/backend/src/odoo-backup/odoo-backup.service.ts:1601-1638 | The sequential loop of upserts against a specification per order id, with a childless duplicate passed over |
| BulkUpsert.BulkEffect | packages/backend/src/odoo-backup/odoo-backup.service.ts:1878-2095 | The bulk path against the same specification, with a childless last duplicate clearing the children |
| BulkUpsert.BulkRefinesOneByOneExactlyWhen | packages/backend/src/odoo-backup/odoo-backup.service.ts:1601-1638 | Both paths leave the same tables up to new ids exactly when no order whose last duplicate embeds none had children to lose |
| BulkUpsert.MixturesAgree | packages/backend/src/odoo-backup/odoo-backup.service.ts:1681-1697 | With nothing to lose, batches stored by either policy, in any mixture, end as the sequential loop; which fallbacks carry out a policy is the subject of `AgreementIsEnough` |
| BulkUpsert.CompleteHasNothingToLose | packages/backend/src/odoo-backup/odoo-backup.service.ts:1622-1637 | Orders that each embed a line and a payment have nothing to lose |
| ItemImport.MergeKeepsKey | packages/backend/src/admin/oracle-native.service.ts:58-68 | Folding two rows with one conflict key keeps the key, whichever columns they take it from |
| ItemImport.KeyIsKeptExactlyWhen | packages/backend/src/admin/oracle-native.service.ts:41-68 | For a set of columns, folding keeps the conflict key of every two rows over them that share one exactly if no key column is among them in both spellings |
| ItemImport.FoldsExactlyWhen | packages/backend/src/admin/oracle-native.service.ts:588-615 | Folding files every row of every result set over the columns under its own key, exactly under the same condition |
| ItemImport.MergeDuplicateRows | packages/backend/src/admin/oracle-native.service.ts:588-615 | The folding loop computes the fold, rows in order of first appearance |
| ItemImport.FoldFolds | packages/backend/src/admin/oracle-native.service.ts:588-615 | With each key column in one spelling: one folded row per key of the input and filed under it, so keys differ pairwise, and each cell the last non-blank value |
| ItemImport.KeyIsReadOffTheCells | packages/backend/src/admin/oracle-native.service.ts:380-401 | The conflict key of a row: its item id, else its SKU, else its handle, trimmed, and its region |
| ItemImport.FoldedItemSays | packages/backend/src/admin/oracle-native.service.ts:373-401 | An item made of a folded row takes every field from the last row with its key that gives it; the type falls back to the item type, the name to SKU and description |
| ItemUpserts.EveryInterleavingAgrees | packages/backend/src/admin/oracle-native.service.ts:752-783 | Rows with distinct keys end in the same table up to new ids in whatever order the database serves look-ups, dropped connections and writes |
| ItemUpserts.SharedKeysRace | packages/backend/src/admin/oracle-native.service.ts:752-783 | Without the folding, two rows under one key leave whichever is served last |
| ItemUpserts.LosingAWrite | packages/backend/src/admin/oracle-native.service.ts:765-783 | A write whose connection drops leaves its row in the table or the table as it was, touches no other row, and is tried once more and no more |
| ItemUpserts.OutcomesCompose | packages/backend/src/admin/oracle-native.service.ts:752-804 | Importing two chunks in turn leaves what importing them together should |
| ItemUpserts.ItemTable.UpsertChunk | packages/backend/src/admin/oracle-native.service.ts:755-804 | One chunk served in any order: acceptable rows stored under their key with the old id or a new one, others refused and counted, the rest of the table untouched |
| ItemUpserts.ItemTable.ImportFromOracle | packages/backend/src/admin/oracle-native.service.ts:736-804 | Folding then upserting chunk by chunk: whatever the chunk size, every key of the source that is complete has a row of its own, with the id it had before and every field from the last source row that gives it, and all other rows are untouched; imported and skipped count the complete and the incomplete keys |
| ItemUpserts.DifferentIdsStayApart | packages/backend/src/admin/oracle-native.service.ts:377-402 | Source rows of one region with different item ids are never folded: each is found in the table under its own id |
| BatchUpdate.NewestUsableIsFound | packages/backend/src/store-config/batch-operations.service.ts:68-92 | The register used for a region is a newest one with both ids, and there is one whenever the region has any |
| BatchUpdate.StoreTable.CollectByRegion | packages/backend/src/store-config/batch-operations.service.ts:79-92 | The loop keeps the first usable register of each region |
| BatchUpdate.PatchCompletesExactlyWhenFillable | packages/backend/src/store-config/batch-operations.service.ts:196-273 | After the update every active store has both ids exactly if every selected store's missing ids are non-zero in the register of its region |
| BatchUpdate.PatchFillsIn | packages/backend/src/store-config/batch-operations.service.ts:196-250 | An id that was there and not zero stays, a missing or zero one becomes that of a newest register of the region unless that is zero, each of bank and cash for itself, and nothing else changes |
| BatchUpdate.DryRunPredictsExactlyWhen | packages/backend/src/store-config/batch-operations.service.ts:136-168 | The live run can complete every store exactly if the preview skips none and no id to be written is zero |
| BatchUpdate.RestoringUndoes | packages/backend/src/store-config/batch-operations.service.ts:377-400 | Restoring the backup puts back every row that can be written, whatever the update left |
| BatchUpdate.MixtureExactlyWhenSomeAreStuck | packages/backend/src/store-config/batch-operations.service.ts:355-406 | After a commit, a rollback ends all or nothing exactly if none or all of the rows cannot be restored |
| BatchUpdate.StoreTable.RollbackFromBackup | packages/backend/src/store-config/batch-operations.service.ts:355-406 | Every backed-up row is put back except those that cannot be written; the count is full exactly if all could |
| BatchUpdate.StoreTable.Update | packages/backend/src/store-config/batch-operations.service.ts:196-273 | The transaction commits exactly if every store can be filled and the database does not fail; the stores counted as updated are those the register of their region gives an id they lack |
| BatchUpdate.StoreTable.PopulateAtomic | packages/backend/src/store-config/batch-operations.service.ts:40-323 | A live run with rollback ends with every active store complete or every store as it was, failures after the commit included; a run without errors did the former, says so, and filled each store from a newest register of its region without touching an id that was there; a dry run changes nothing |
| Idempotency.KeysDiffer | packages/backend/src/sync/idempotency.service.ts:15-23 | Under one operation and context the key determines the order |
| Idempotency.AuditLog.IsDuplicate | packages/backend/src/sync/idempotency.service.ts:25-34 | True exactly if some audit row under the key is a success or a duplicate |
| Idempotency.AuditLog.RecordOperation | packages/backend/src/sync/idempotency.service.ts:36-80 | Found and updated, or inserted: still one row per key, with the new status, no other row changed, and attempts counting the operations under the key |
| CreditMemo.EveryMemoIsAccountedFor | packages/backend/src/refunds/credit-memo.service.ts:164-305 | Over every run, whatever throws and whether or not what threw took effect: an order has as many memos as went unrecorded, and one more if it is posted |
| CreditMemo.SecondMemoExactlyWhen | packages/backend/src/refunds/credit-memo.service.ts:207-290 | A push that makes a memo makes a second one of its order exactly if an earlier one went unrecorded |
| CreditMemo.PushKeepsRecordedExactlyWhen | packages/backend/src/refunds/credit-memo.service.ts:270-304 | One push keeps every synced row with an audit row exactly if it does not update its row, miss the audit row and fail to mark the row as failed |
| CreditMemo.SyncedAreRecordedExactlyWhen | packages/backend/src/refunds/credit-memo.service.ts:164-305 | Throughout a run every synced row has the audit row of its order exactly if no push strands its row in this way |
| CreditMemo.AtMostOneMemo | packages/backend/src/refunds/credit-memo.service.ts:164-305 | If a create that throws had no effect and no write after a successful create fails, Oracle gets at most one memo per order, across all its refund rows, and exactly one for a row marked synced |
| CreditMemo.AFailedRecordingPostsTwice | packages/backend/src/refunds/credit-memo.service.ts:270-304 | A memo that went unrecorded and one more push that makes one post the order twice |
| CreditMemo.AnswersExactlyWhen | packages/backend/src/refunds/credit-memo.service.ts:164-305 | When a push answers synced without a memo, synced with which memo, or failed; in all other cases it throws |
| CreditMemo.AnsweredIsNotPending | packages/backend/src/refunds/credit-memo.service.ts:145-305 | Over every run, a refund whose push was answered, as synced or as failed, is not pending at the end |
| CreditMemo.Service.PushRefund | packages/backend/src/refunds/credit-memo.service.ts:164-305 | One push has the effect and the answer of the specification, for every read, create and write that may throw; a refund answered as synced is synced, with the number of the order's new memo or with no memo made, no other refund touched and the order posted; one answered as failed has failed |
| CreditMemo.Service.Fail | packages/backend/src/refunds/credit-memo.service.ts:720-754 | Marking a refund as failed: the push throws if the row cannot be updated, and the audit row is written at best |
| CreditMemo.Service.ProcessPending | packages/backend/src/refunds/credit-memo.service.ts:145-158 | A batch is its pushes one after the other with their answers, up to and including the first that throws, which ends it without results |
| Csv.ParseCsvToRows | packages/backend/src/admin/admin.service.ts:341-371 | The parser computes the records of the text, or does not end where the pattern matches nothing at the start of a line |
| Csv.ParseRow | packages/backend/src/admin/admin.service.ts:345-363 | The `exec` loop over one line, with the extra empty cell after a final comma |
| Csv.FieldIsTheLongestQuoted | packages/backend/src/admin/admin.service.ts:347-359 | On any text a field is the longest beginning that is quoted, with no quotes inside but doubled ones, and if there is none, what precedes the first comma |
| Csv.FieldRoundTrip | packages/backend/src/admin/admin.service.ts:321-327 | An escaped cell is matched as a whole and read back as itself, whatever commas and quotes it holds |
| Csv.LineRoundTrip | packages/backend/src/admin/admin.service.ts:329-363 | A printed line is read back as its cells, with one empty cell more exactly if its last cell is empty; reading one whose first cell is empty does not end |
| Csv.SplittingUndoesJoining | packages/backend/src/admin/admin.service.ts:338-343 | Splitting the joined lines gives the lines back |
| Csv.EitherLineEnd | packages/backend/src/admin/admin.service.ts:342-342 | A line ends the same with a carriage return before the newline as without |
| Csv.ParsedRowsAreClean | packages/backend/src/admin/admin.service.ts:341-371 | Whatever the text, every cell that comes back is trimmed and holds no newline |
| Csv.RecordsReadTheirLines | packages/backend/src/admin/admin.service.ts:338-371 | Whatever the text: one record per line that is not blank after the first, with the columns the first names, each cell what its line holds at that place, or empty where the line is too short |
| Csv.RoundTripExactlyWhen | packages/backend/src/admin/admin.service.ts:321-371 | For distinct clean headers and rows with exactly those columns, parsing what was printed gives the rows back exactly if every cell is clean and every row's first cell is non-empty |
| Reconciliation.WorstOfIsTheWorst | packages/backend/src/reconciliation/reconciliation.service.ts:343-348 | The result is among the statuses and no worse one is; none at all is a match |
| Reconciliation.WorstOfDependsOnlyOnTheSet | packages/backend/src/reconciliation/reconciliation.service.ts:343-348 | Order and repeats do not matter |
| Reconciliation.StatusFollowsFromTheReportedRow | packages/backend/src/reconciliation/reconciliation.service.ts:1125-1266 | What is compared and what is reported stay in step: the differences on the row decide its status |
| Reconciliation.MatchedExactlyWhen | packages/backend/src/reconciliation/reconciliation.service.ts:1125-1266 | Matched exactly if syncable, present in Oracle without error, both reported differences unknown or within tolerance, and no line difference |
| Reconciliation.ReportedDifferences | packages/backend/src/reconciliation/reconciliation.service.ts:1040-1266 | The differences reported for an order are those of the stored figures: the amount only where the invoice has a total and bills this order alone, the payments only where receipts were found, the lines always |
| Reconciliation.OracleSideReads | packages/backend/src/reconciliation/reconciliation.service.ts:1096-1119 | The Oracle side of a row is what the tables hold for its order: invoice, lines, receipts, and how many orders the invoice covers, one where that is unknown |
| Reconciliation.VerdictFromTheFigures | packages/backend/src/reconciliation/reconciliation.service.ts:1040-1266 | An order has a status exactly if the stored figures call for it: its state, whether and as what Oracle has its invoice, and which figures are more than the tolerance apart |
| Rollup.BuiltRowsArePriced | packages/backend/src/reconciliation/reconciliation.service.ts:1040-1123 | In the rows of one scan every invoice header has one total |
| Rollup.KeyReads | packages/backend/src/reconciliation/reconciliation.service.ts:1786-1806 | A group is reported under its store, which is the branch code, else the branch name, else the till, else unknown, under its day, or under both |
| Rollup.SameGroupExactlyWhen | packages/backend/src/reconciliation/reconciliation.service.ts:1786-1806 | Two rows share a group exactly if they have the same store and the same day, as far as the grouping asks |
| Rollup.UnlinkedExactlyWhen | packages/backend/src/reconciliation/reconciliation.service.ts:1855-1860 | The orders that count as unlinked are those in Oracle without a receipt |
| Rollup.SharedInvoiceLaw | packages/backend/src/reconciliation/reconciliation.service.ts:1839-1861 | For any grouping the groups' Oracle totals add up to the whole plus, for each invoice, its total once for every group it touches beyond the first |
| Rollup.GroupsAddUpExactlyWhen | packages/backend/src/reconciliation/reconciliation.service.ts:1839-1861 | The groups add up to the whole exactly if the excesses cancel out, which they do if every non-zero invoice lies in one group; with no negative invoice, exactly then |
| Breakdown.Group.Accumulate | packages/backend/src/reconciliation/reconciliation.service.ts:1839-1861 | Taking in one row keeps every field of the group the running figure of its rows, an invoice counted once |
| Breakdown.Group.Finalise | packages/backend/src/reconciliation/reconciliation.service.ts:1864-1885 | The figures of the rows taken in, each rounded once |
| Breakdown.Gather | packages/backend/src/reconciliation/reconciliation.service.ts:444-454 | One separate group per key, holding exactly the rows of that key in order |
| Breakdown.Breakdown | packages/backend/src/reconciliation/reconciliation.service.ts:429-475 | Every group reports the figures of its own rows, and the totals those of all rows |
| Breakdown.Summarise | packages/backend/src/reconciliation/reconciliation.service.ts:1738-1784 | The summary carries the very counts, problems, totals and rate of the breakdown's totals, whatever the grouping |
| Breakdown.StatusesPartitionTheRows | packages/backend/src/reconciliation/reconciliation.service.ts:55-57 | Problems, matches and orders not expected in Oracle make up all rows |
| Breakdown.RateIsHundredExactlyWhen | packages/backend/src/reconciliation/reconciliation.service.ts:1768-1780 | The reported rate is 100 exactly if problems are at most one in 20,000 comparable orders |
| Breakdown.BelowTwentyThousandTheRateIsHonest | packages/backend/src/reconciliation/reconciliation.service.ts:1768-1780 | Below 20,000 comparable orders it is 100 exactly if there is no problem |
| Breakdown.OneProblemAmongTwentyThousand | packages/backend/src/reconciliation/reconciliation.service.ts:1768-1780 | At the scan limit one problem still reports 100 |
| Breakdown.OrderOfRowsDoesNotMatter | packages/backend/src/reconciliation/reconciliation.service.ts:444-462 | The same rows in another order give the same groups, figures and totals |
| Breakdown.ReportedInvoiceLaw | packages/backend/src/reconciliation/reconciliation.service.ts:1864-1885 | The shared-invoice law holds to the cent on the rounded figures any scan reports |
| Breakdown.ReportedGroupsAddUp | packages/backend/src/reconciliation/reconciliation.service.ts:1864-1885 | Rounded sales, payments and receipts of the groups add up to the cent to the rounded totals |
| ReceiptNumbers.MatchOne | packages/backend/src/reconciliation/reconciliation.service.ts:1531-1541 | The loop over the transaction numbers of a part finds the longest that occurs |
| ReceiptNumbers.ChosenExactlyWhen | packages/backend/src/reconciliation/reconciliation.service.ts:1531-1541 | A number is chosen exactly if it occurs after a hyphen, nothing longer does, and nothing as long is listed earlier |
| ReceiptNumbers.CutGivesBackTheTender | packages/backend/src/reconciliation/reconciliation.service.ts:1542-1544 | Cutting at the last occurrence gives back what was put in front, whatever hyphens it holds |
| ReceiptNumbers.RoundTripExactlyWhen | packages/backend/src/reconciliation/reconciliation.service.ts:1481-1551 | A number built from a tender and a numeric transaction number, with or without `-MISC`, comes back to that number and tender exactly if the number wins its part |
| ReceiptNumbers.PlainTendersAlwaysComeBack | packages/backend/src/reconciliation/reconciliation.service.ts:1481-1551 | With numeric transaction numbers a tender without a hyphen before a digit always comes back |
| ReceiptNumbers.ReceiptsByTransaction | packages/backend/src/reconciliation/reconciliation.service.ts:1490-1558 | Both tables, part by part: exactly the receipts each part claims, those rejected or without a status left out |
| ReceiptNumbers.MoneyIsCountedOncePerPart | packages/backend/src/reconciliation/reconciliation.service.ts:1511-1551 | The money collected is each receipt's amount times the number of parts that claim it |
| ReceiptNumbers.ClaimedExactlyWhen | packages/backend/src/reconciliation/reconciliation.service.ts:1511-1541 | A part claims a receipt exactly if it has a status that does not read as an error in any spelling and one of the part's numbers occurs after a hyphen in its number |
| ReceiptNumbers.OnePartCountsOnce | packages/backend/src/reconciliation/reconciliation.service.ts:1511-1511 | Up to 200 transaction numbers no receipt counts twice |
| ReceiptNumbers.TwoPartsCountItTwice | packages/backend/src/reconciliation/reconciliation.service.ts:1511-1551 | With 201 one can |
| Tender.TenderGroup.Add | packages/backend/src/reconciliation/reconciliation.service.ts:543-585 | Taking in a payment, receipt or fee keeps the group's fields the running figures of its entries |
| Tender.TenderBook.Add | packages/backend/src/reconciliation/reconciliation.service.ts:500-541 | An entry lands in the one group of its key, added when new, and in no other |
| Tender.IndexByTxn | packages/backend/src/reconciliation/reconciliation.service.ts:556-568 | The two look-ups hold, for every transaction number, its first order and how many orders of it were scanned |
| Tender.FillReceipts | packages/backend/src/reconciliation/reconciliation.service.ts:569-585 | Each receipt lands on its first order's group, marked partial when fewer orders were scanned than the invoice covers |
| TenderEntries.ReceiptLandsOnItsOrder | packages/backend/src/reconciliation/reconciliation.service.ts:556-585 | A receipt lands on the first scanned order that carries its transaction number, under that order's key, as a receipt or a fee, and nowhere if none carries it |
| TenderEntries.TillHoldsThePayments | packages/backend/src/reconciliation/reconciliation.service.ts:538-551 | The till's entries are exactly the payments of the scanned orders, each under its order's key |
| TenderEntries.PartialExactlyWhen | packages/backend/src/reconciliation/reconciliation.service.ts:570-578 | A group is partial exactly if a receipt lands in it of whose invoice fewer orders were scanned than it covers |
| Tender.TenderBreakdown | packages/backend/src/reconciliation/reconciliation.service.ts:482-673 | Every reported row is its group finalised, and the totals add up the rows as reported |
| Tender.TendersConserve | packages/backend/src/reconciliation/reconciliation.service.ts:495-585 | For every grouping, before rounding: the groups hold exactly the scanned orders' payments, and exactly the receipts that land, takings and fees apart, in money and in number |
| Tender.GrandCountsAreExact | packages/backend/src/reconciliation/reconciliation.service.ts:660-667 | The grand total counts exactly the scanned orders' payments and the standard receipts that land |
| Tender.GrandTotalWithinHalfCents | packages/backend/src/reconciliation/reconciliation.service.ts:631-707 | Each reported grand total is within half a cent per group and half a cent more of the true sum |
| Tender.GrandTotalExactInCents | packages/backend/src/reconciliation/reconciliation.service.ts:631-707 | In whole cents the grand totals are exact, so the same for every grouping |
| Tender.TenderMatchesExactlyWhen | packages/backend/src/reconciliation/reconciliation.service.ts:680-707 | In whole cents a tender matches exactly if takings and receipts are within tolerance |
| Tender.TenderStatusExactlyWhen | packages/backend/src/reconciliation/reconciliation.service.ts:680-697 | In whole cents, which way a tender is out: incomplete, missing, unexpected, short or over, each exactly when |
| Tender.SameTenderGroupExactlyWhen | packages/backend/src/reconciliation/reconciliation.service.ts:500-510 | Two tenders of two orders share a group exactly if they are the same but for case, and the orders have the same store and day as far as the grouping asks |
| TenderWindow.StoredReceiptsReachTheReport | packages/backend/src/reconciliation/reconciliation.service.ts:556-585 | Every stored receipt reaches the report once per part that claims it: standard ones as receipts, miscellaneous ones as fees |
| TenderWindow.MapTenders | packages/backend/src/reconciliation/reconciliation.service.ts:588-629 | A tender is listed as unmapped exactly if it has no usable mapping and no receipt anywhere in the window; when each mapping status is given |
| Watermark.Backup.SavePage | packages/backend/src/ibq-backup/ibq-backup.service.ts:357-369 | One page written, a new order counted as saved and an update or a failure as skipped |
| Watermark.Backup.BackupRegion | packages/backend/src/ibq-backup/ibq-backup.service.ts:280-383 | A run receives everything the server answers, or up to its limit, or the pages before a failed request; only a scheduled run that does not fail moves the watermark, to when it started |
| Watermark.WatermarkLeavesNoGap | packages/backend/src/ibq-backup/ibq-backup.service.ts:297-383 | Over scheduled, failed and manual runs in any mix every order dated up to the watermark has been fetched by some run |
| Watermark.StoredExactlyWhen | packages/backend/src/ibq-backup/ibq-backup.service.ts:357-369 | An order is in the table exactly if some run received it and could write it |
| Watermark.StoredIsTheLatest | packages/backend/src/ibq-backup/ibq-backup.service.ts:357-369 | What is stored under an id is the last version the last run to write it received |
| Watermark.AsksForWhatIsGiven | packages/backend/src/ibq-backup/ibq-backup.service.ts:328-342 | A scheduled run asks from the watermark on, in whole seconds; a manual one for what it is told and otherwise as a scheduled one |
| Watermark.ReceivesWholePages | packages/backend/src/ibq-backup/ibq-backup.service.ts:305-376 | A run with a limit gets that many orders at once, any other everything; if a request fails, nothing or the pages of 500 before it |
| Watermark.UnwrittenOrderIsPassed | packages/backend/src/ibq-backup/ibq-backup.service.ts:357-380 | The watermark moves past an order that was received and could not be written |
| Money.Round2IsNearest | packages/backend/src/common/money.ts:17-20 | The rounded value is in whole cents and within half a cent |

## Left out

- HTTP, SOAP, SQL text, Redis, queues, cron, web sockets, mail, logging, controllers, authorisation and user interface.
- IEEE doubles, `Number.EPSILON`, non-finite numbers and the loss of precision of large ids: money is exact, ids fit.
- Case folding beyond ASCII.
- Breaker: the separate Redis writes inside one admission or finish, a switch between Redis and the in-process store in mid-run, key expiry, and the status queries.
- LaneScheduler: workers that reject, which by the helper's contract catch their own errors.
- Paging: endpoints that misreport the total or return orders without numeric or with repeated ids, and page requests that fail.
- Paging.PullAll: requires distinct numeric ids, the data the paging is made for, and that the loop can end at all, which `EndsExactlyWhen` makes exact.
- Per-order fallback: its transactions that replace lines or payments are taken to be served one after the other; where the database lets two of one order overlap, identical duplicates could also leave children twice.
- Order storage: orders without a numeric id, rows or orders that fail on their own, child row ids and timestamps, and the saved count over all batches, in which the bulk path counts distinct ids.
- Item import: rows whose mapping throws, conversions to numbers, dates and flags, a second lost connection, and the other source tables.
- ItemUpserts.ItemTable.ImportFromOracle: requires that no key column of the result set occurs in both spellings, without which, by `FoldsExactlyWhen`, folded rows can share a key and race.
- Batch update: concurrent writers, alerts beyond their possible failure, listing and manual backups.
- Credit memo: concurrent pushes, reading the batch of pending refunds, building the memo, applying it to an invoice (which never throws) and verifying it.
- CSV: rows with differing columns, and the database import built on the parser.
- Reconciliation: issue texts, queue fields, orphan search, live Oracle verification, row filters, sorting of lists, and the display columns a group takes from its first row.
- Tender: loading of payment mappings and of payments per order, which are inputs; the SQL pre-filter on receipt numbers, which lets through every receipt the loop after it can match.
- Watermark: how override dates are converted, TLS options, parts of an order written before its upsert fails, disabled regions, and what happens to fetched orders afterwards.
