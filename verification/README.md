# A verified model of the server monitoring service

The service keeps an inventory of servers in Postgres, mirrors it in Redis (the set
`server:all_ids` and one hash `server:info:<id>` per server), pings every server in
lock-guarded cycles, logs the observations, mails reports, and authenticates its
administrators with rotating refresh tokens. This project models the parts of it that
keep state and proves what they promise over all inputs, all schedules and all runs.

The stores, the clock and the channels are explicit state. Every store call that can fail
takes a fault as a parameter, and each theorem says whether it assumes none. Threshold,
batch size, worker count, time to live and capacities are symbolic throughout.

| file | what it holds |
|---|---|
| `Stores.dfy`, `Text.dfy` | the two stores seen server by server; trimming |
| `Monitoring.dfy`, `MonitoringHistory.dfy` | `Evaluate` as a program, and whole histories of one server |
| `WorkerPool.dfy` | one monitoring cycle, with every store call of every worker a separate step |
| `CycleLock.dfy` | the lock that gates the cycles of any number of instances |
| `Inventory.dfy`, `ServerManagement.dfy` | create, update, delete and import as whole operations and as the service's programs |
| `BulkImport.dfy` | the one-row-at-a-time meaning of an import, and batching as a refinement of it |
| `InventoryIndex.dfy` | administrator operations taken apart, with monitor writes in between |
| `SystemRuns.dfy` | whole runs of administrator operations and cycles under any schedule |
| `OverlappingRuns.dfy` | the same store call by store call, with operations and evaluations overlapping |
| `AuthSessions.dfy`, `AuthRuns.dfy` | login, refresh, logout, and whole runs of them |
| `ObservationLogger.dfy` | the bounded logger, as a state machine and as a program with one reused buffer |
| `ReportingPool.dfy` | the report workers |
| `AddressOdometer.dfy` | the simulator's address generators |

How the layers meet: `Evaluate` and the other programs are proved equal to a function on
the contents of one server; `WorkerPool.Confluence` reduces a concurrent cycle to one
application of that function per server; `SystemRuns.RunsAreFaithful` reduces a run of the
whole system to one history of pings and updates per server; and the theorems of
`MonitoringHistory` speak about every such history. `OverlappingRuns.ServersAtRest` carries
them over to runs in which operations and evaluations of different servers overlap freely.

Claims that turn out false of the code, each with a counterexample and its exact condition:

- An outage is reported after exactly the threshold number of failures. False once an
  update is interleaved (`UpdateMayReportEarly`): a success while ONLINE clears only the
  Redis counter, and an update copies the old Postgres counter back. Over whole histories
  it is true if and only if no update comes after a success that ended a streak shorter
  than the threshold (`ExactHistoryIff`).
- Detection is never late. True with updates as single steps (`HistoryInvariant`). An
  outage is missed when the detecting evaluation falls between the read and the write of an
  update of the same server (`OutageMayBeHidden`), which writes back what it read; such an
  update acts as one step if and only if the evaluation's writes leave the row with the
  status and failures that the update read (`StraddledUpdateIff`). A whole update between
  the two writes of an evaluation makes the stores disagree if and only if the evaluation
  was a transition (`SplitEvaluationIff`). A whole update between the read and the first
  write amounts to one after the other unless the server was down, with failures counted
  since, and fails again (`StaleEvaluationIff`); even then only the counter of a server that
  is down differs (`StaleEvaluationKeeps`). Where no operation and no evaluation overlap on
  one server, everything stated about histories holds (`ServersAtRest`).
- Nor is detection on time when cycles outlast the lock (`SerialIff`) and two evaluations of
  one server overlap: two that agree count as one (`OverlapCountsOnce`), so an outage goes
  unreported if and only if it lacked exactly two failures (`OverlapIsLateIff`), and two that
  disagree leave the stores in disagreement if and only if the one that writes first makes a
  transition (`OverlapDivergesIff`).
- Stores that a failed Postgres write has made diverge agree again if and only if an update
  or a contradicting ping follows (`HealHistory`), and the update does so by undoing the
  detected outage (`UpdateMayUndoOutage`).
- The failure list of an import is in sheet order. False for every batch size but 1
  (`FailureOrderMayDiffer`): a malformed row is reported at once, a duplicate only with its
  batch. True if and only if no malformed row follows a duplicate of its own batch
  (`FailureOrderIff`).
- An access token of a revoked session is refused for good. False in four ways: the mark
  lapses at the session's expiry and a token issued shortly before outlives it
  (`RefusalMayLapse`); a session revoked in its last half second is not marked, its time to
  live being rounded to zero (`RefusalMayNotBegin`); nor is one revoked after its expiry
  (`LateLogoutLeavesNoMark`); and a mark lost to a store error, which the code ignores,
  refuses nothing (`LostMarkRefusesNothing`). From any state, and whatever fails before or
  later, it is true if and only if the token has expired or expires no later than the
  session's mark (`RefusedForGoodIff`); which revocations leave a mark is exact too
  (`MarkedIff`), and after error-free runs the session row alone decides
  (`RefusedForGoodByRow`).
- No refresh token is exchanged twice. True of every run in which the store works, and
  with store errors false if and only if both writes that revoke the token fail
  (`NoDoubleExchange`, `GrantUnderFaults`).

One disagreement between code and documentation: `docs/ARCHITECTURE.md` says that
presenting an expired or revoked refresh token ends all sessions of the user. The code does
so for a revoked token only (`SessionEndedByRefreshIff`) and merely refuses an expired one
(`ExpiredTokenIsOnlyRefused`). The model follows the code.

## Model

| member | source | states |
|---|---|---|
| `Monitoring.MonitoringService.Evaluate` | internal/modules/monitoring/service/monitoring_service.go:32-103 | changes nothing but the evaluated server, in both stores as the state machine decides, with each store error cutting it short where the code does; always logs the observation first |
| `Monitoring.MonitoringService.ProcessServer` | internal/modules/monitoring/worker/pool.go:75-96 | one job: no address, an empty one or an unreadable one ends it without a ping or an observation |
| `Monitoring.MonitoringService.GetServerState` | internal/modules/monitoring/repository/impl/redis_server_state_store.go:24-38 | an absent hash is "not found", a present one is returned as it is |
| `Monitoring.MonitoringService.SetServerState` | internal/modules/monitoring/repository/impl/redis_server_state_store.go:40-47 | writes status and counter only; on an absent hash it leaves one without an address |
| `Monitoring.MonitoringService.UpdateServerStatus` | internal/modules/monitoring/repository/impl/monitoring_repository_impl.go:22-29 | writes status and failures of an existing row, and succeeds without effect on a missing one |
| `MonitoringHistory.PingHistoryClosedForm` | internal/modules/monitoring/service/monitoring_service.go:54-100 | for every threshold and ping history, both stores in closed form: with k trailing failures Redis holds (ONLINE, k) below the effective threshold T' and (OFFLINE, k - T') from it on, and Postgres the last streak if it stayed below T', else 0 |
| `MonitoringHistory.HistoryClosedForm` | internal/modules/server_management/service/server_service.go:129-139 | the same closed form for every history of pings and harmless updates, with the last name and address given, but for the counter of a server that is down, which an update restarts |
| `MonitoringHistory.CrossStoreStep` | internal/modules/monitoring/service/monitoring_service.go:79-100 | every ping and every update keeps the relation between the stores |
| `MonitoringHistory.HistoryInvariant` | internal/modules/server_management/service/server_service.go:129-139 | over every history of pings and of updates made as single steps: the statuses agree, OFFLINE means 0 failures in Postgres, ONLINE a Redis counter of 0 or equal to the Postgres one, itself below T'; k >= T' gives OFFLINE, OFFLINE gives k >= 1, a success gives (ONLINE, 0), and a live server's counter never lags k |
| `MonitoringHistory.FailuresFromOnline` | internal/modules/monitoring/service/monitoring_service.go:64-76 | from any ONLINE state, exactly how many further failures report an outage |
| `MonitoringHistory.UpdateMayReportEarly` | internal/modules/server_management/service/server_service.go:134-139 | a history with threshold 2 in which one failure after a success is reported as an outage |
| `MonitoringHistory.ExactIff` | internal/modules/monitoring/service/monitoring_service.go:54-76 | detection is exact from a state on if and only if the Redis counter equals the trailing failures |
| `MonitoringHistory.UpdateKeepsExactIff` | internal/modules/server_management/service/server_service.go:129-139 | an update of a live server spoils exact detection if and only if Redis has been cleared and Postgres still remembers failures |
| `MonitoringHistory.ExactHistoryIff` | internal/modules/server_management/service/server_service.go:129-139 | over every history: at each moment, and whatever failures follow, an outage is reported exactly when its failures reach the threshold, if and only if no update comes after a success that ended a streak of 1 to T' - 1 failures |
| `MonitoringHistory.FailedWriteDiverges` | internal/modules/monitoring/service/monitoring_service.go:88-100 | a failed Postgres write leaves Redis as a successful one would, and makes the statuses diverge if and only if it was a transition |
| `MonitoringHistory.HealStep` | internal/modules/monitoring/service/monitoring_service.go:79-100 | an error-free evaluation restores agreement if and only if its ping contradicts Redis; otherwise the row is untouched and the divergence stays |
| `MonitoringHistory.AgreementStays` | internal/modules/monitoring/service/monitoring_service.go:54-100 | no ping and no update breaks an agreement on a status that is not empty |
| `MonitoringHistory.HealHistory` | internal/modules/monitoring/service/monitoring_service.go:79-100 | over any further history of pings and updates a divergence heals if and only if some event is an update or a ping that contradicts the status Redis held |
| `MonitoringHistory.UpdateMayUndoOutage` | internal/modules/server_management/service/server_service.go:129-139 | for every threshold: after a transition to OFFLINE whose Postgres write failed, an update leaves both stores ONLINE |
| `MonitoringHistory.EvaluationUnderFaults` | internal/modules/monitoring/service/monitoring_service.go:32-103 | the answer of an evaluation and what it leaves, for every combination of store errors: which error is answered when, that the first three change nothing, that a failed row write leaves Redis as a success would, and that Postgres is reached exactly by a transition or a failure counted while ONLINE |
| `MonitoringHistory.EmptyStatusIsOnline` | internal/modules/monitoring/service/monitoring_service.go:42-46 | a hash with an empty status is evaluated exactly as one that says ONLINE |
| `MonitoringHistory.UnknownStatusIsKept` | internal/modules/monitoring/service/monitoring_service.go:54-100 | over every ping history any other unknown status stays, the row stays, and the counter counts the trailing failures |
| `MonitoringHistory.JobNeedsAddress` | internal/modules/monitoring/worker/pool.go:75-96 | a job is an evaluation exactly if an address was read that is not empty, and otherwise nothing |
| `WorkerPool.JobStepResumes` | internal/modules/monitoring/worker/pool.go:75-96 | each single store call of a job leaves exactly the rest of that job to do |
| `WorkerPool.SequentialCell` | internal/modules/monitoring/worker/pool.go:54-72 | a sequential pass gives every listed server the result of one job on its initial contents, and touches no other |
| `WorkerPool.NextInv` | internal/modules/monitoring/worker/pool.go:38-96 | every step of every thread keeps: the channel is a window of the snapshot, every id taken has one owner, and what is left to do for each server leads to its sequential result |
| `WorkerPool.ExecInv` | internal/modules/monitoring/worker/pool.go:38-96 | that invariant in every state any schedule reaches |
| `WorkerPool.Confluence` | internal/modules/monitoring/worker/pool.go:38-96 | for every schedule, worker count from 1 on and pattern of store errors, a cycle that returned has finished every id exactly once and left both stores as a sequential pass in any order |
| `WorkerPool.NoWorkersNoEffect` | internal/modules/monitoring/worker/pool.go:53-72 | with a concurrency of 0 no server is ever examined |
| `WorkerPool.StepDecreases` | internal/modules/monitoring/worker/pool.go:54-72 | every step of every thread lowers the work that remains |
| `WorkerPool.SchedulesAreBounded` | internal/modules/monitoring/worker/pool.go:38-73 | no schedule is longer than 8 steps per id, one per worker and two |
| `WorkerPool.NeverStuck` | internal/modules/monitoring/worker/pool.go:54-72 | until the cycle returns, some thread can move |
| `WorkerPool.Run` | internal/modules/monitoring/worker/pool.go:38-73 | a failed listing is an error and an empty one ends the cycle, both without effect; otherwise, for every concurrency and under any scheduler that picks a thread able to move, the cycle ends in the sequential result |
| `CycleLock.LockServer.AcquireLock` | internal/shared/database/redis.go:38-43 | answers acquired exactly when no live key exists, and the key is what the attempts so far determine |
| `CycleLock.WinnerKeepsKey` | internal/shared/database/redis.go:38-43 | once won, the key outlasts the whole time to live in every longer history, since nothing deletes it |
| `CycleLock.AcquisitionsAreSpaced` | internal/app/monitoring/app.go:146-173 | two cycles of any instances start at least the time to live apart |
| `CycleLock.KeyStemsFromWinner` | internal/shared/database/redis.go:38-43 | every key was set by an attempt that won |
| `CycleLock.AcquiredIff` | internal/app/monitoring/app.go:146-173 | an attempt that reaches Redis runs a cycle if and only if every earlier cycle began at least the time to live ago |
| `CycleLock.EvaluationsDoNotInterleave` | internal/app/monitoring/app.go:146-173 | if cycles last at most the time to live, evaluations of different cycles do not interleave |
| `CycleLock.SerialIff` | internal/app/monitoring/app.go:101-173 | cycles of a given duration are serial in every history if and only if the duration is at most the time to live |
| `Inventory.CreateIsClean` | internal/modules/server_management/service/server_service.go:58-93 | whatever fails, a create keeps names and addresses unique and trimmed, an error changes nothing, and the unique indexes never have to reject it |
| `Inventory.UpdateRowIsClean` | internal/modules/server_management/service/server_service.go:107-132 | the same of the writing half of an update, even on a row whose status was read earlier |
| `Inventory.UpdateIsClean` | internal/modules/server_management/service/server_service.go:95-142 | the same of a whole update |
| `Inventory.DeleteIsClean` | internal/modules/server_management/service/server_service.go:144-172 | a delete removes that row only, or changes nothing |
| `Inventory.CreateAnswers` | internal/modules/server_management/service/server_service.go:58-93 | a create succeeds exactly if no server has the trimmed name or address and no store call fails; otherwise the answer names the first obstacle |
| `Inventory.UpdateAnswers` | internal/modules/server_management/service/server_service.go:95-142 | an update succeeds exactly if the server exists, no other has the trimmed name or address and no store call made fails, look-ups being made only for what changes, and answers the server with both trimmed; not-found, name and address conflicts are exact too |
| `Inventory.VanishedRowAnswers` | internal/modules/server_management/repository/impl/server_repository_impl.go:83-95 | an update of a row that vanished after it was read answers a conflict or the missing row |
| `Inventory.DeleteAnswers` | internal/modules/server_management/service/server_service.go:144-172 | a delete succeeds exactly if the server exists and no store call fails, and an absent one is not found |
| `Inventory.IndexesAdmitIff` | internal/modules/server_management/domain/server.go:23-25 | the primary key and the two unique indexes admit a write exactly if names and addresses stay unique |
| `Inventory.MirrorUnderFaults` | internal/infrastructure/redis/server_cache.go:24-103 | what upsert and delete leave of every hash and of the id set when the first or the second Redis write fails |
| `Text.TrimIsMiddle` | internal/modules/server_management/repository/impl/server_repository_impl.go:29-33 | trimming drops white space from both ends and nothing else |
| `Text.TrimTrims` | internal/modules/server_management/repository/impl/server_repository_impl.go:29-33 | trimming yields a trimmed text, and keeps exactly the trimmed ones |
| `Text.WhiteSpace` | internal/modules/server_management/repository/impl/server_repository_impl.go:29-33 | blanks and line ends are white space, and no letter, digit or mark of a host name or address is |
| `Text.Utf8LengthBounds` | internal/modules/server_management/service/import_export.go:159 | the length compared with 255 counts one byte for each ASCII character, more for any other and at most four |
| `Text.Utf8LengthConcat` | internal/modules/server_management/service/import_export.go:159 | byte lengths add up over concatenation |
| `ServerManagement.ServerService.GetByName` | internal/modules/server_management/repository/impl/server_repository_impl.go:59-69 | finds a row with the trimmed name, or there is none |
| `ServerManagement.ServerService.GetByIPv4` | internal/modules/server_management/repository/impl/server_repository_impl.go:47-57 | finds a row with the trimmed address, or there is none |
| `ServerManagement.ServerService.CacheUpsert` | internal/infrastructure/redis/server_cache.go:24-48 | hash first, then the id set, an error in either ending it there |
| `ServerManagement.ServerService.CreateServer` | internal/modules/server_management/service/server_service.go:58-93 | computes the whole-operation create on both stores, keeps the table unique and trimmed, and never reports a duplicate key |
| `ServerManagement.ServerService.UpdateServer` | internal/modules/server_management/service/server_service.go:95-142 | computes the whole-operation update, including its not-found and conflict errors, and never reports a duplicate key |
| `ServerManagement.ServerService.DeleteServer` | internal/modules/server_management/service/server_service.go:144-172 | computes the whole-operation delete |
| `ServerManagement.ServerService.FindExisting` | internal/modules/server_management/repository/impl/server_repository_impl.go:71-81 | the maps filled from the query answer, for every candidate of the batch, whether the table holds its name or address |
| `ServerManagement.ServerService.BatchCreate` | internal/modules/server_management/repository/impl/server_repository_impl.go:108-113 | inserts all rows under the unique indexes, or none |
| `ServerManagement.ServerService.BatchUpsert` | internal/infrastructure/redis/server_cache.go:58-80 | the pipeline writes every item's hash and id, but for the commands that are lost |
| `ServerManagement.PipelineIsSound` | internal/infrastructure/redis/server_cache.go:58-80 | whichever commands are lost, an id is listed exactly if it was or its listing arrived, every hash is as before or that of a server of the batch, and the table is untouched |
| `ServerManagement.ServerService.FilterBatch` | internal/modules/server_management/service/import_export.go:81-114 | the map-assisted filter accepts and rejects exactly as one-row-at-a-time acceptance against the full table, and the accepted rows fit the unique indexes |
| `ServerManagement.ServerService.ProcessBatch` | internal/modules/server_management/service/import_export.go:76-140 | a batch takes effect as a whole or not at all, and fails exactly when the lookup or a non-empty insert does |
| `ServerManagement.ServerService.ScanHeader` | internal/modules/server_management/service/import_export.go:58-67 | the last matching column of each kind, or -1 |
| `ServerManagement.HeaderOfIff` | internal/modules/server_management/service/import_export.go:58-71 | the header is good exactly if some title reads "server name", "server_name" or "name" and some "ipv4" or "ip", in lower case and trimmed, and the last of each counts |
| `ServerManagement.ImportComesFrom` | internal/modules/server_management/service/import_export.go:142-176 | in terms of the cells of the sheet: every server added is well formed, and every well-formed row has its name or its address in the final table |
| `ServerManagement.ImportReports` | internal/modules/server_management/service/import_export.go:103-108 | the answer lists the created names in order and a text for every failure, and both counters are the lengths of these lists |
| `ServerManagement.FirstFaultStops` | internal/modules/server_management/service/import_export.go:88-119 | a first batch whose look-up fails stops the import, as does one whose insertion fails with a new server in it |
| `ServerManagement.ServerService.ReadRows` | internal/modules/server_management/service/import_export.go:142-176 | the row loop keeps table, counters and Redis equal to those of the batched import of the rows read so far, none of whose batches fails, or stops at the first that does |
| `ServerManagement.ServerService.ImportRows` | internal/modules/server_management/service/import_export.go:142-181 | the row loop and the last batch compute the batched import of the classified rows, or stop at the first batch that fails |
| `ServerManagement.ServerService.ImportServers` | internal/modules/server_management/service/import_export.go:52-184 | fails exactly if the store calls of some batch do, and then table and Redis are those of the sequential import of the rows in the batches before the first of these; on success the table and the answer are those of the sequential import, every row that is not blank is answered for once, every server added is well formed, every well-formed row is in the table, the table grows by the successes and Redis mirrors them; a bad header changes nothing |
| `ServerManagement.MirrorsCompose` | internal/infrastructure/redis/server_cache.go:58-80 | mirroring batch after batch is mirroring all created servers at once |
| `BulkImport.KindsAreTrimmed` | internal/modules/server_management/service/import_export.go:145-169 | every row that passes validation has a trimmed name and address |
| `BulkImport.ClassifyIff` | internal/modules/server_management/service/import_export.go:145-169 | of the two cells of a row: it is skipped exactly if both are empty, a candidate exactly if both are present, the name has at most 255 bytes and the address is an IPv4 one, and it is reported with these two texts |
| `BulkImport.RenderReads` | internal/modules/server_management/service/import_export.go:104-161 | a failure reads as the name, the address in brackets, and a note exactly if the row was malformed |
| `BulkImport.EveryRowIsAnswered` | internal/modules/server_management/service/import_export.go:101-163 | every row that is not blank is answered for exactly once, as created or as failed, with its own name and address |
| `BulkImport.SequentialExtends` | internal/modules/server_management/service/import_export.go:100-119 | an import keeps every old row, and every new one is that of a candidate, ONLINE and without failures |
| `BulkImport.SequentialAccounting` | internal/modules/server_management/service/import_export.go:93-114 | created and failed add up to the non-blank rows, the table grows by the created, and stays unique and trimmed |
| `BulkImport.SequentialIsAcceptAll` | internal/modules/server_management/service/import_export.go:142-176 | malformed and blank rows have no influence on which candidates are accepted |
| `BulkImport.BatchesAreFull` | internal/modules/server_management/service/import_export.go:171-175 | completed batches are full and the pending one is not |
| `BulkImport.MalformedInOrder` | internal/modules/server_management/service/import_export.go:157-163 | malformed rows are reported in sheet order |
| `BulkImport.BatchedRefinesSequential` | internal/modules/server_management/service/import_export.go:76-181 | for every batch size, table and sheet, batching is invisible in the table, the created servers and their order, and in the failures of each kind in order; the failure lists are equal as multisets |
| `BulkImport.DecidedIsSequential` | internal/modules/server_management/service/import_export.go:171-175 | at every moment the completed batches are a sequential import of the rows they cover, in table and created servers |
| `BulkImport.PendingIff` | internal/modules/server_management/service/import_export.go:165-175 | a duplicate is waiting in the pending batch exactly if some earlier row of the same batch is one |
| `BulkImport.FailureOrderMayDiffer` | internal/modules/server_management/service/import_export.go:157-163 | for every batch size from 2 on, a duplicate followed by a malformed row comes out in another order than in the sheet |
| `BulkImport.FailureOrderIff` | internal/modules/server_management/service/import_export.go:102-163 | for every batch size, the failure list is in sheet order if and only if no malformed row has an earlier row in its own batch that the table, as the rows before it leave it, already holds |
| `BulkImport.SequentialCovers` | internal/modules/server_management/service/import_export.go:100-114 | after an import every well-formed row's name or address is in the table |
| `BulkImport.ReimportAddsNothing` | internal/modules/server_management/service/import_export.go:88-184 | importing the same rows again creates nothing, changes no row and fails every non-blank row |
| `InventoryIndex.SetStateIsInvisible` | internal/modules/monitoring/repository/impl/redis_server_state_store.go:40-47 | a monitor write changes neither the id set nor any address, and cannot bring an address back for a deleted server |
| `InventoryIndex.SetRowIsInvisible` | internal/modules/monitoring/repository/impl/monitoring_repository_impl.go:22-29 | a monitor's row update changes no id, name or address |
| `InventoryIndex.ImportCatchesUp` | internal/infrastructure/redis/server_cache.go:58-80 | the pipeline of an import batch turns an exact index of the old table into one of the new |
| `InventoryIndex.NextInv` | internal/modules/server_management/service/server_service.go:58-172 | every store call of an administrator and every monitor write keeps: once the commands still to send are sent, the index is exactly the table |
| `InventoryIndex.ExecInv` | internal/modules/server_management/service/server_service.go:58-172 | that invariant over every interleaving |
| `InventoryIndex.QuiescentIndexIsExact` | internal/infrastructure/redis/server_cache.go:24-103 | whenever no operation is under way, `server:all_ids` is the set of table ids, every listed hash carries the table's address, and any other hash carries none |
| `InventoryIndex.OthersStayExact` | internal/infrastructure/redis/server_cache.go:24-103 | during an operation only the ids it still has to mirror can be out of step |
| `InventoryIndex.PoolStepIsMonitorWrite` | internal/modules/monitoring/worker/pool.go:75-96 | every step of every worker of a cycle is, to the stores, one of those two monitor writes or nothing |
| `InventoryIndex.UninterruptedOperations` | internal/modules/server_management/service/server_service.go:58-172 | the single store calls of create, update and delete, run without interruption, are the whole operations |
| `SystemRuns.JobIsPing` | internal/modules/monitoring/worker/pool.go:75-96 | an error-free job is a ping event of the server's history, or nothing if it has no address |
| `SystemRuns.ImportFaithful` | internal/modules/server_management/service/import_export.go:142-181 | an import starts one empty history for each server it creates and disturbs no other |
| `SystemRuns.CycleFaithful` | internal/modules/monitoring/worker/pool.go:38-96 | a cycle under any schedule adds one ping to the history of every server with an address, and nothing else |
| `SystemRuns.NextFaithful` | internal/app/monitoring/app.go:146-173 | every whole operation and every cycle keeps the contents of each server equal to the replay of its own history |
| `SystemRuns.RunsAreFaithful` | internal/app/monitoring/app.go:101-173 | so does every run from empty stores, of whole operations and cycles one after another |
| `SystemRuns.EveryServerInEveryRun` | internal/modules/monitoring/service/monitoring_service.go:54-100 | in every such run, for every server in the table: it is indexed, the stores agree, an outage of the threshold's length is recorded, and a recorded outage is one |
| `OverlappingRuns.StraddledCell` | internal/modules/server_management/service/server_service.go:96-136 | an update that monitor writes fall into writes back to both stores the status and failures it read |
| `OverlappingRuns.StraddledUpdateIff` | internal/modules/server_management/service/server_service.go:96-136 | for all monitor writes between its read, its write and its HSET, an update acts as one step made after them if and only if they leave the row with the status and failures it read |
| `OverlappingRuns.OutageMayBeHidden` | internal/modules/server_management/service/server_service.go:96-136 | for every threshold: the evaluation that detects an outage, made between the read and the write of an update, leaves both stores ONLINE |
| `OverlappingRuns.SplitEvaluationIff` | internal/modules/monitoring/service/monitoring_service.go:79-100 | a whole update between the two writes of an evaluation leaves the statuses in agreement if and only if the evaluation was no transition |
| `OverlappingRuns.ConcludesTheJob` | internal/modules/monitoring/service/monitoring_service.go:79-100 | the writes of an evaluation that has decided are what is left of a job that has read the state |
| `OverlappingRuns.StaleEvaluationIff` | internal/modules/monitoring/service/monitoring_service.go:33-100 | a whole update between the read and the first write of an evaluation equals one of the two sequential orders if and only if it is not the case that the server was down, with failures counted since, and fails again |
| `OverlappingRuns.StaleEvaluationKeeps` | internal/modules/monitoring/service/monitoring_service.go:33-100 | in every case it keeps the relation between the stores, and for a server that was down only the counter can differ from the sequential result |
| `OverlappingRuns.OverlapCountsOnce` | internal/modules/monitoring/service/monitoring_service.go:33-100 | two evaluations of one server with the same ping result that both read before either writes have the effect of one |
| `OverlappingRuns.OverlapIsLateIff` | internal/app/monitoring/app.go:146-173 | two such failures leave an outage unreported that they would have completed one after the other, if and only if exactly two were lacking |
| `OverlappingRuns.OverlapDivergesIff` | internal/app/monitoring/app.go:146-173 | two such evaluations with different results leave the statuses in agreement if and only if the one that writes first makes no transition |
| `OverlappingRuns.PoolStepIsWork` | internal/modules/monitoring/worker/pool.go:75-96 | the store calls of a worker of a cycle, from its ping on, are those of a job here |
| `OverlappingRuns.NextKept` | internal/modules/server_management/service/server_service.go:58-172 | every store call of an operation or of a job, the two not overlapping on one server, keeps: each server, once the job or operation that has it in hand is over, holds the contents of its own history |
| `OverlappingRuns.ExecInv` | internal/modules/server_management/service/server_service.go:58-172 | that in every run, together with the exactness of the index |
| `OverlappingRuns.ServersAtRest` | internal/modules/monitoring/service/monitoring_service.go:54-100 | in every such run and at every moment, whatever overlaps on other servers, a server not in hand holds the contents of its history: the stores agree, an outage of the threshold's length is recorded, and a recorded outage is one |
| `AuthSessions.FindByText` | internal/modules/identity/repository/impl/refresh_token_repository_impl.go:26-33 | finds the first row with that token, or there is none |
| `AuthRuns.LoginAnswers` | internal/modules/identity/service/auth_service.go:68-123 | for every state and fault a login is granted exactly for an existing user with the right password when no call fails; it hands out the generated refresh token, and an access token for that user and for the session it has just added that expires 15 minutes later in whole seconds |
| `AuthRuns.LoginLeaves` | internal/modules/identity/service/auth_service.go:81-110 | the rows a login leaves, whatever fails: a session of 7 days, and after it its token; nothing else changes |
| `AuthRuns.RefreshAnswers` | internal/modules/identity/service/auth_service.go:156-187 | a granted refresh hands out the new refresh token, and an access token of 15 minutes for the session of the presented token and for that session's user |
| `AuthSessions.AuthService.DoLogin` | internal/modules/identity/service/auth_service.go:68-123 | a session and its first token, both for a week; no change on bad credentials; each store error leaves what was written before it |
| `AuthSessions.AuthService.DoRefresh` | internal/modules/identity/service/auth_service.go:125-188 | computes the refresh step with its checks in order, reuse detection, expiry cap, the three ignored store errors and a failed signature |
| `AuthSessions.AuthService.DoLogout` | internal/modules/identity/service/auth_service.go:190-208 | ends an active session and its tokens and leaves the mark, each unless its own ignored store call fails; no change for any other session; an error only for a text that is not an id |
| `AuthSessions.AuthService.DoLogoutAll` | internal/modules/identity/service/auth_service.go:210-224 | the marking loop leaves one mark for each session that was active, but for those that fail; a failed listing is an error without effect, other store errors are ignored one by one |
| `AuthRuns.NextInv` | internal/modules/identity/service/auth_service.go:68-224 | every error-free operation keeps: tokens belong to a session of their user and expire with it, an unrevoked token has an unrevoked session, replacements form chains, and marks stand for exactly the sessions revoked while active |
| `AuthRuns.ExecInv` | internal/modules/identity/service/auth_service.go:68-224 | that invariant in every error-free run |
| `AuthRuns.ExecRooted` | internal/modules/identity/service/auth_service.go:68-224 | in every run, with any store errors, tokens belong to a session of their user and expire with it |
| `AuthRuns.RefreshTokensFormAChain` | internal/modules/identity/service/auth_service.go:166-176 | in every reachable state the tokens of a session, in order of issue, are each replaced by the next; all but the last are revoked; the list is complete and acyclic |
| `AuthRuns.ExecFollows` | internal/modules/identity/repository/impl/refresh_token_repository_impl.go:35-64 | over any run, with any store errors, rows are only added, and what is revoked stays revoked |
| `AuthRuns.GrantedIffLive` | internal/modules/identity/service/auth_service.go:125-188 | in every reachable state a refresh is granted exactly for an unrevoked token of a known user whose login is less than 7 days ago, unless a look-up or the signature fails; every other answer is exact too |
| `AuthRuns.NoDoubleExchange` | internal/modules/identity/service/auth_service.go:136-176 | in every run, from any state and with any store errors, the same token is granted twice only if both writes that revoke it failed the first time |
| `AuthRuns.GrantUnderFaults` | internal/modules/identity/service/auth_service.go:173-176 | presented again at once, a granted token is granted again if and only if both writes that revoke it failed; the new one is on record if and only if its insert succeeded |
| `AuthRuns.LinkUnderFaults` | internal/modules/identity/service/auth_service.go:173-176 | unless its write fails, the replacement link leads to the row of the new token, or nowhere if that was not inserted |
| `AuthRuns.IssuedTokenIsUsable` | internal/modules/identity/service/auth_service.go:101-123 | a token just issued, by login or exchange, is granted to the same user |
| `AuthRuns.RevokedExactlyBy` | internal/modules/identity/service/auth_service.go:125-224 | the complete list of what takes a live token out of use, whatever store calls fail, as an if-and-only-if |
| `AuthRuns.EndedExactlyBy` | internal/modules/identity/service/auth_service.go:125-224 | the complete list of what ends a session, whatever store calls fail, as an if-and-only-if |
| `AuthRuns.SessionEndedByRefreshIff` | internal/modules/identity/service/auth_service.go:136-140 | a refresh ends a session if and only if a revoked token of the same user was presented and neither the listing nor the revocation failed |
| `AuthRuns.ExpiredTokenIsOnlyRefused` | internal/modules/identity/service/auth_service.go:142-144 | an expired, unrevoked token is refused and nothing else changes |
| `AuthRuns.LockedOutRun` | internal/modules/identity/service/auth_service.go:210-224 | a user without live session and token stays so over any run, with any store errors, in which they do not log in |
| `AuthRuns.ReuseEndsAllIff` | internal/modules/identity/service/auth_service.go:210-224 | for every combination of store errors, exactly when presenting a revoked token leaves its user without sessions, and without tokens |
| `AuthRuns.ReuseLocksOut` | internal/modules/identity/service/auth_service.go:136-140 | presenting a revoked token, in every state of every run, ends all sessions and tokens of its user unless one of the store calls for it fails; once that is done, over the whole remaining run and whatever fails in it, nothing presented is granted to them until they log in again |
| `AuthRuns.TokensExpireWithTheirLogin` | internal/modules/identity/service/auth_service.go:160-171 | rotation neither extends nor shortens a session: in every run, with any store errors, every token expires exactly 7 days after its login |
| `AuthRuns.RoundingError` | internal/modules/identity/repository/impl/revocation_store_redis.go:21-29 | the time to live is a whole number of seconds within half a second of the time left, and zero below half a second |
| `AuthRuns.RevokedSessionIsRefused` | internal/infrastructure/security/authenticator.go:42-48 | from any state, and whatever else fails then or later, a session whose mark is not lost has its access tokens refused from its revocation until at most half a second before its expiry, provided Redis answers |
| `AuthRuns.HandedOutTokenIsRefused` | internal/infrastructure/security/authenticator.go:42-48 | the access token that a login or a refresh hands out is refused from the revocation of the very session the login added or whose refresh token was presented, whatever happens before and after, until half a second before its expiry |
| `AuthRuns.FailsOpen` | internal/infrastructure/security/authenticator.go:42-48 | when Redis does not answer only the expiry counts |
| `AuthRuns.MarkedExactlyBy` | internal/modules/identity/service/auth_service.go:199-222 | the complete list of what marks a session, and until when, whatever store calls fail; whether the rows could be revoked does not matter |
| `AuthRuns.MarkedIff` | internal/modules/identity/service/auth_service.go:199-222 | a revocation sets the mark, until the lapse, exactly if the session has half a second to live and the mark is not lost; otherwise marks are as before |
| `AuthRuns.ExecKeepsMark` | internal/modules/identity/repository/impl/revocation_store_redis.go:21-29 | nothing that happens later, failing or not, adds, moves or removes the mark of a revoked session |
| `AuthRuns.RefusedForGoodIff` | internal/infrastructure/security/authenticator.go:23-60 | from any state and over every further run, with or without store errors before or after, an access token of any revoked session is refused for ever if and only if it has expired or expires no later than the session's mark |
| `AuthRuns.RefusedForGoodByRow` | internal/modules/identity/repository/impl/revocation_store_redis.go:21-29 | after error-free runs the same condition in terms of the session row alone |
| `AuthRuns.RefusalMayLapse` | internal/infrastructure/security/token_manager.go:34-43 | a run in which the access token of a revoked session is refused and later accepted again |
| `AuthRuns.RefusalMayNotBegin` | internal/modules/identity/repository/impl/revocation_store_redis.go:21-29 | a run in which a session revoked while active is never marked and its token accepted at once |
| `AuthRuns.LateLogoutLeavesNoMark` | internal/modules/identity/service/auth_service.go:210-224 | a run in which a logout of all sessions revokes an expired session without a mark, and its token is accepted |
| `AuthRuns.LostMarkRefusesNothing` | internal/modules/identity/service/auth_service.go:201-205 | a run in which the mark of a logout is lost to an ignored store error and the token is accepted at once |
| `ObservationLogger.NextInv` | internal/infrastructure/elasticsearch/observation_logger.go:55-100 | every step keeps: accepted is, in order, what was flushed, then the batch, then the channel; batches hold 1 to the batch size |
| `ObservationLogger.Conservation` | internal/infrastructure/elasticsearch/observation_logger.go:55-100 | that in every reachable state, for every capacity and batch size, and after the flusher's exit the sink has received exactly what was accepted |
| `ObservationLogger.TickFlushesAll` | internal/infrastructure/elasticsearch/observation_logger.go:93-97 | a tick hands over everything received so far, as one batch if there is any |
| `ObservationLogger.ReceiveFlushesIff` | internal/infrastructure/elasticsearch/observation_logger.go:88-92 | a received observation joins the batch, which is handed over exactly when it reaches the batch size |
| `ObservationLogger.CloseIsFinal` | internal/infrastructure/elasticsearch/observation_logger.go:66-69 | in no run after Close is anything accepted or dropped |
| `ObservationLogger.OfferedIsAcceptedOrDropped` | internal/infrastructure/elasticsearch/observation_logger.go:55-64 | every observation offered in a run is accepted or dropped, with multiplicity |
| `ObservationLogger.DropsOnlyWhenFull` | internal/infrastructure/elasticsearch/observation_logger.go:55-64 | in every run, at a drop the last accepted observations, as many as the capacity, are all still waiting in the channel |
| `ObservationLogger.ShutdownMakesProgress` | internal/infrastructure/elasticsearch/observation_logger.go:66-69 | on a closed channel the flusher can always move, and nears its exit with every move but a tick |
| `ObservationLogger.BufferedLogger.LogObservation` | internal/infrastructure/elasticsearch/observation_logger.go:55-64 | never waits: sends if the channel has room, hands over to a waiting flusher if it is unbuffered, and drops exactly otherwise |
| `ObservationLogger.BufferedLogger.AppendOne` | internal/infrastructure/elasticsearch/observation_logger.go:88-92 | appending to the reused buffer, flushing at the batch size, loses and repeats nothing |
| `ObservationLogger.BufferedLogger.OnTick` | internal/infrastructure/elasticsearch/observation_logger.go:93-97 | after a tick the buffer is empty and what the sink has received, with the channel, is everything accepted |
| `ObservationLogger.BufferedLogger.Shutdown` | internal/infrastructure/elasticsearch/observation_logger.go:66-69 | returns, however ticks fall, with everything accepted handed over exactly once and in order |
| `ReportingPool.NextInv` | internal/modules/reporting/service/reporting_worker.go:65-116 | every step keeps: waiting, taken and not yet queued reports are separate, each worker holds only what it received, and each stored history fits where its report is |
| `ReportingPool.ExecInv` | internal/modules/reporting/service/reporting_worker.go:49-116 | that invariant in every run, with the configured or default pool size and capacity |
| `ReportingPool.PoolSizes` | internal/modules/reporting/service/reporting_worker.go:49-63 | positive settings are taken as they are, any other means 5 workers or 100 places |
| `ReportingPool.LostRequestLeavesNothing` | internal/modules/reporting/service/service.go:51-54 | a request that cannot be persisted changes nothing |
| `ReportingPool.HistoriesAreLegal` | internal/modules/reporting/service/reporting_worker.go:93-116 | in every run and with any store errors, each history is a prefix of PENDING, PROCESSING, then COMPLETED or FAILED, and the final status is the work's outcome |
| `ReportingPool.TakenOnce` | internal/modules/reporting/service/reporting_worker.go:84-91 | no report is received twice, by the same worker or another |
| `ReportingPool.StopLeavesTerminal` | internal/modules/reporting/service/reporting_worker.go:73-78 | when Stop returns the queue is empty, and each enqueued report is final if and only if neither of its own two status writes failed |
| `ReportingPool.CloseIsFinal` | internal/modules/reporting/service/reporting_worker.go:73-78 | in no run after Close does a report enter the queue, which only empties from its head |
| `ReportingPool.StopIsNeverStuck` | internal/modules/reporting/service/reporting_worker.go:73-91 | after Close some worker can always move until all are gone |
| `ReportingPool.StopIsBounded` | internal/modules/reporting/service/reporting_worker.go:73-91 | after Close every worker step lowers a bound that nothing raises, so Stop returns |
| `ReportingPool.ReportingWorker.constructor` | internal/modules/reporting/service/reporting_worker.go:49-63 | positive settings are taken, and the defaults for any other |
| `ReportingPool.ReportingWorker.RequestReport` | internal/modules/reporting/service/service.go:51-59 | takes exactly the protocol's steps of a request, so persists PENDING and then sends, or does neither; sends are served in order, waiting while the queue is full |
| `ReportingPool.ReportingWorker.EnqueueReport` | internal/modules/reporting/service/reporting_worker.go:80-82 | a send takes the protocol's step into the queue, or waits behind earlier ones exactly if the queue is full |
| `ReportingPool.ReportingWorker.ReceiveReport` | internal/modules/reporting/service/reporting_worker.go:84-91 | takes exactly the protocol's steps of a receive: the oldest report goes to the worker and the first waiting send moves up; none is lost or overtaken |
| `ReportingPool.ReportingWorker.ProcessReport` | internal/modules/reporting/service/reporting_worker.go:93-116 | on any row: two writes at most, the second only after the first, no other report touched; a pending report ends in a final status if and only if neither write failed |
| `ReportingPool.ReportingWorker.WorkerTurn` | internal/modules/reporting/service/reporting_worker.go:84-116 | a receive and a job take exactly the protocol's steps for them, so that what is proved of every run holds of the object |
| `AddressOdometer.Turn` | cmd/simulator/main.go:250-257 | the odometer's carry is division by 254 |
| `AddressOdometer.GenerateIPs` | cmd/simulator/main.go:246-259 | the i-th address has octets i div 254 and i mod 254 + 1, for every count |
| `AddressOdometer.SeedBatches` | cmd/simulator/seed/main.go:69-108 | the nested batched loop yields the same sequence for every count and batch size, in batches full but for the last |
| `AddressOdometer.ItoaInjective` | cmd/simulator/main.go:251 | decimal rendering is injective |
| `AddressOdometer.AddressReads` | cmd/simulator/main.go:246-259 | the i-th text reads back, digit by digit, as the subnet, then i div 254, then i mod 254 + 1 |
| `AddressOdometer.AddressesAreDistinct` | cmd/simulator/main.go:246-259 | different positions render as different texts |
| `AddressOdometer.OctetsFitIff` | cmd/simulator/main.go:246-259 | all octets are in range if and only if the count is at most 65024 |

## Left out

- ReportingPool.ReportingWorker.WorkerTurn: runs one job to its end; overlapping workers and Stop are in the state machine only.
- ReportingPool.StopLeavesTerminal: speaks of reports the queue accepted; a request still waiting to send when Stop closes the queue panics in the source, and a run ends there.
- ObservationLogger.BufferedLogger.LogObservation: requires an open channel; logging after Shutdown panics in the source, as does a second Shutdown.
- WorkerPool.Confluence: the order of observations across workers is not part of the pool state; each job's own observation is in `ProcessServer`.
- CycleLock.LockServer.AcquireLock: time is the Redis server's clock, and a key lives on the half-open interval from its setting to its expiry.
- MonitoringHistory.HistoryInvariant: takes an update as one step; what overlap with an evaluation does is in `StraddledUpdateIff`, `SplitEvaluationIff` and `ServersAtRest`.
- AuthRuns.ExecInv: assumes no store errors, as do `RefreshTokensFormAChain`, `GrantedIffLive` (of the past), `IssuedTokenIsUsable` and `RefusedForGoodByRow`; the other results on sessions do not.
- AuthSessions.AuthService.DoRefresh: each auth operation reads the clock once, where the source reads it for every store call.
- InventoryIndex.QuiescentIndexIsExact: assumes administrator operations one at a time and without store errors; create, delete and import read and write the table in one step, and administrator operations racing each other are not serialised by the source.
- SystemRuns.RunsAreFaithful: takes operations and cycles one after another and assumes no store errors; overlap is in `OverlappingRuns`, and what a failed Postgres write does in `FailedWriteDiverges` and `HealHistory`.
- SystemRuns.EveryServerInEveryRun: the same; the statement with overlap is `OverlappingRuns.ServersAtRest`.
- OverlappingRuns.ServersAtRest: excludes every overlap of an operation and an evaluation on one server, although `StaleEvaluationIff` and `StraddledUpdateIff` show some to be harmless, and assumes at most one job for a server at a time, as `WorkerPool.NextInv` and `CycleLock.SerialIff` give it.
- Concurrent refreshes of one token: the source does not serialise them; each auth operation is one atomic step here.
- Integer widths: the failure counters are unbounded integers, where the source has machine integers that no realistic outage overflows.
- Column widths: a name or address too long for its column is a store error, given by a parameter like any other.
- Foreign functions: date and address parsing, lower-casing, pings, password checks and the work of a report are parameters; hashing is taken as injective, and generated ids and tokens as new.
- A disabled cache is a cache whose first Redis write fails; a failed store call other than a pipeline has no effect, and an import batch is inserted as a whole or not at all.
- Reading and writing spreadsheets, the upload size limit, and export; the export header "IPv4 Address" is not one the import recognises, so there is no round trip to state.
- Search, sorting and paging: they depend on an SQL order with ties that the source does not fix.
- HTTP and gRPC gateways, cookies, CSRF, permissions, validation interceptors, rate limiting, configuration, mail, Elasticsearch queries and retries, uptime percentages and report templates: plumbing, foreign effects or single branches.
