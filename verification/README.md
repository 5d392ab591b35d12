# react-native-job-queue, modelled in Dafny

This project models the core of react-native-job-queue, a persistent job
queue for React Native:

- **The queue engine** (`src/Queue.ts`). Workers are registered under a
  name. Jobs are stored with a priority, a number of attempts and a timeout.
  Passes of `runQueue` pick the job to serve, fetch a batch for its worker,
  and hand the batch to executers under a queue-wide concurrency limit.
  Executions that settle are recorded as succeeded, failed or cancelled.
  `cancelJob`, `cancelActiveJob` and `cancelAllActiveJobs` cancel running
  jobs. `requeueJob` puts a job back.
- **The worker** (`lib/commonjs/Worker.js`). It has a concurrency limit and
  an execution count. It races the handler against a timer when the job has
  a timeout. It records its lifecycle callbacks.
- **The in-memory store** (`lib/module/utils/JobQueueMock.js`). This is the
  store the queue runs against in the model. Its filters, its two-pass
  sort and its `slice` are all modelled.
- **The iOS store** (`ios/Job.swift`), as row-set semantics. The `Job`
  table is a sequence of rows. Each SQL query is the rows it selects, in
  `ORDER BY priority DESC, datetime(created)` order. The UPDATE and DELETE
  statements are in-place changes. The dictionary conversion and the
  soft-delete query rewrite of `getJobsByQuery` are modelled as well.

Modules:

| module | file | what it holds |
|---|---|---|
| `Wrappers` | `wrappers.dfy` | `Option` |
| `Seqs` | `seqs.dfy` | `filter` and `slice(0, n)` on sequences, first non-empty offer |
| `Ordering` | `ordering.dfy` | text order, strict weak orders, insertion sort, sorted prefixes |
| `Jobs` | `jobs.dfy` | the job record, the 0/1 flag, errors and their codes |
| `Workers` | `worker.dfy` | the `Worker` class, the timeout race |
| `MockStore` | `mock_store.dfy` | the `JobStoreMock` class and its queries |
| `SqliteStore` | `sqlite_store.dfy` | Swift rows, dictionaries, the query rewrite, the `JobTable` class |
| `QueueLogic` | `queue_logic.dfy` | the parts of the queue that only compute a value |
| `JobQueue` | `queue.dfy` | the `Queue` class |

**Splitting asynchronous code into steps.** Every asynchronous operation
of the queue is cut at the awaits where the outside world decides what
happens next. Each resulting piece is a method, and the decision it
consumes is a parameter:

- `excuteJob` up to its `await promise` is `BeginExecution`.
- The settling of the handler is `SettleExecution`. It takes how the handler
  settled, whether the timer fired first, and the clock.
- The tail of `runExecuter` is `ReleaseDeferred`.
- One pass of `runQueue` is `RunQueue`.

A run of the queue is a sequence of these steps. The model allows them in
any order. That includes orders the source reaches only through
`stop` and `start`: a pass of `runQueue` that overlaps a batch still being
executed (see "Left out").

**Inputs and recorded effects.**

- Events the queue emits are appended to `events`. Calls of `onQueueFinish`
  are appended there as `QueueFinished`.
- Calls of a worker's callbacks are appended to that worker's `calls`.
- Calls of a running promise's CANCEL function are appended to
  `cancelRequests`.
- The clock, the fresh UUID, `AppState`, the handler's outcome and the
  timer race are parameters of the step that uses them.

**Job orders.**

- The in-memory store's `sortJobs` orders by priority descending, then by
  `created` descending (newest first). Its first pass sorts by date
  descending, whatever its comment says, and the second pass keeps that
  order among equal priorities.
- The iOS store orders by priority descending, then by `datetime(created)`
  ascending, to the second.

## Model

| member | source | states |
|---|---|---|
| Workers.Worker.constructor | lib/commonjs/Worker.js:23-47 | name kept, concurrency defaults to 5, execution count 0, no callback called yet |
| Workers.BusyOnlyAtLimit | lib/commonjs/Worker.js:52-60 | a worker is busy exactly when it has 0 executers left; past its limit it is not busy and has a negative number left |
| Workers.Worker.Execute | lib/commonjs/Worker.js:65-83 | the count goes up by one, onStart is called with the job, and the handler is raced against a timer exactly when the timeout is positive and the app is active |
| Workers.TimeoutError | lib/commonjs/Worker.js:87-91 | the timer's error never carries the cancelled code |
| Workers.ExecutionResult | lib/commonjs/Worker.js:84-109 | the execution resolves exactly when the handler resolves and the timer did not win; a won timer rejects with the timeout error; a cancelled rejection can only come from the handler |
| Workers.RaceCancels | lib/commonjs/Worker.js:96-104 | the race calls the handler's CANCEL exactly when the race rejects, the job is timed, and CANCEL is a function |
| Workers.Worker.TriggerSuccess | lib/commonjs/Worker.js:110-112 | onSuccess is recorded; the count is unchanged |
| Workers.Worker.TriggerFailure | lib/commonjs/Worker.js:113-115 | onFailure is recorded with the error; the count is unchanged |
| Workers.Worker.TriggerCompletion | lib/commonjs/Worker.js:116-118 | onCompletion is recorded; the count is unchanged |
| Workers.Worker.DecreaseExecutionCount | lib/commonjs/Worker.js:119-121 | the count goes down by one; no callback |
| MockStore.MockBeforeIsStrictWeakOrder | lib/module/utils/JobQueueMock.js:65-81 | the order sortJobs leaves (priority descending, then newest first) is a strict weak order |
| MockStore.SortJobs | lib/module/utils/JobQueueMock.js:65-81 | the result is a permutation of the jobs, sorted in that order |
| MockStore.SortJobsOrder | lib/module/utils/JobQueueMock.js:65-81 | in the sorted list priorities never increase, and among equal priorities `created` never increases |
| MockStore.JobsOfWorkerMembers | lib/module/utils/JobQueueMock.js:35 | the worker filter keeps exactly the jobs that carry the worker's name |
| MockStore.WithoutId | lib/module/utils/JobQueueMock.js:52-57 | exactly the jobs with another id are kept; unique ids stay unique |
| MockStore.WithoutWorker | lib/module/utils/JobQueueMock.js:58-60 | exactly the jobs of other workers are kept; unique ids stay unique |
| MockStore.ReplaceById | lib/module/utils/JobQueueMock.js:44-51 | same length; each job is replaced by the record exactly when the ids match |
| MockStore.FirstInOrder | lib/module/utils/JobQueueMock.js:25-26 | `sorted[0] \|\| {}`: none exactly for an empty list; otherwise a member that no job sorts before |
| MockStore.NextJobIn | lib/module/utils/JobQueueMock.js:22-27 | none exactly when no job is unclaimed and unfailed; otherwise such a job of the store, first in sort order |
| MockStore.WorkInProgressIn | lib/module/utils/JobQueueMock.js:28-33 | none exactly when no job is claimed and processing; otherwise such a job, first in sort order |
| MockStore.FilterKeepsUniqueIds | lib/module/utils/JobQueueMock.js:53 | filtering never creates two jobs with one id |
| MockStore.ReplaceThenRemove | lib/module/utils/JobQueueMock.js:44-54 | updating a job and then removing its id leaves what removing the id alone leaves |
| MockStore.JobStoreMock.constructor | lib/module/utils/JobQueueMock.js:5-7 | the store starts empty |
| MockStore.JobStoreMock.AddJob | lib/module/utils/JobQueueMock.js:8-11 | the job is appended |
| MockStore.JobStoreMock.GetActiveMarkedJobs | lib/module/utils/JobQueueMock.js:18-21 | every job with active 1 is returned, and only such jobs |
| MockStore.JobStoreMock.GetJobsForWorker | lib/module/utils/JobQueueMock.js:34-38 | only the worker's jobs; the count follows `slice(0, count)`, so never more than a non-negative count |
| MockStore.JobStoreMock.WorkerBatchIsTop | lib/module/utils/JobQueueMock.js:34-38 | the batch is drawn from the store and sorted; a job of the worker that sorts before a kept one is kept too |
| MockStore.JobStoreMock.GetJobsForWorkerWithDeleted | lib/module/utils/JobQueueMock.js:39-43 | the with-deleted query answers exactly like the plain one |
| MockStore.JobStoreMock.UpdateJob | lib/module/utils/JobQueueMock.js:44-51 | every job with the record's id becomes the record; nothing is added or moved |
| MockStore.JobStoreMock.RemoveJob | lib/module/utils/JobQueueMock.js:52-54 | the jobs with that id leave the store |
| MockStore.JobStoreMock.RemoveJobPermanently | lib/module/utils/JobQueueMock.js:55-57 | the same as removeJob: the mock has no soft delete |
| MockStore.JobStoreMock.RemoveJobsByWorkerName | lib/module/utils/JobQueueMock.js:58-60 | the worker's jobs leave the store |
| MockStore.JobStoreMock.DeleteAllJobs | lib/module/utils/JobQueueMock.js:61-64 | the store is empty |
| SqliteStore.ToDictionary | ios/Job.swift:51-66 | the dictionary has exactly the twelve field names as keys |
| SqliteStore.FromDictionary | ios/Job.swift:37-50 | a row comes out exactly when every field is present with the kind its forced cast expects |
| SqliteStore.DictionaryRoundTrip | ios/Job.swift:37-66 | reading back a row's own dictionary gives the row |
| SqliteStore.DictionaryRoundTripBack | ios/Job.swift:37-66 | a dictionary that reads as a row is that row's dictionary, apart from keys that are not fields |
| SqliteStore.ReplaceWhereIdentity | ios/Job.swift:210-211 | a query with no "where" in any letter case is left as it is by the replacement |
| SqliteStore.ReplaceWhereFirst | ios/Job.swift:211 | the text before the first "where" is kept, that occurrence becomes the filter, and the scan resumes after it |
| SqliteStore.RewriteAddsFilter | ios/Job.swift:208-214 | every rewritten query carries "WHERE is_deleted = 0": at its first "where", or after its end |
| SqliteStore.AppendedFilterIsNotRun | ios/Job.swift:200-214 | for a query without "where" ending in its only ';', the appended filter lies after the statement that runs, so getJobsWithDeleted still returns soft-deleted rows |
| SqliteStore.PrecedesIsStrictWeakOrder | ios/Job.swift:119 | `ORDER BY priority DESC, datetime(created)` is a strict weak order |
| SqliteStore.LimitLength | ios/Job.swift:150-172 | LIMIT keeps at most `limit` rows, and all of them for a negative limit |
| SqliteStore.SelectOrdered | ios/Job.swift:150-172 | the selected rows match, come from the table, are ordered, and number LIMIT of the matches; any matching row that sorts before a selected one is selected too |
| SqliteStore.SelectFirst | ios/Job.swift:118-133 | LIMIT 1: none exactly when no row matches; otherwise a matching row that no matching row precedes |
| SqliteStore.UpdatedRow | ios/Job.swift:288-311 | active, failed, meta_data, attempts and status come from the record; every other column keeps its value |
| SqliteStore.UpdateStoresRecordIff | ios/Job.swift:288-311 | the stored row becomes the record exactly when the two agree on every column update does not write |
| SqliteStore.FilterKeepsUniqueIds | ios/Job.swift:22 | deleting rows keeps the primary key unique |
| SqliteStore.DropId | ios/Job.swift:232-249 | the rows with another id are collected, one at a time, in order |
| SqliteStore.JobTable.constructor | ios/Job.swift:19-36 | the table starts empty |
| SqliteStore.JobTable.Add | ios/Job.swift:69-96 | the row is inserted exactly when its id is new; otherwise the statement fails and the table is unchanged |
| SqliteStore.JobTable.GetJobBy | ios/Job.swift:97-117 | a live row with that id, or none exactly when there is no such row |
| SqliteStore.JobTable.GetNextJob | ios/Job.swift:118-133 | a claimable row (active 0, not failed or cancelled, not deleted) first in queue order; none exactly when there is none |
| SqliteStore.JobTable.GetWorkInProgressJob | ios/Job.swift:134-149 | a processing row with active 0 first in queue order; none exactly when there is none |
| SqliteStore.JobTable.GetJobsForWorker | ios/Job.swift:150-172 | the worker's claimable rows, first ones first, at most `count` of them |
| SqliteStore.JobTable.GetJobsForWorkerWithDeleted | ios/Job.swift:173-195 | the same selection without the status and is_deleted conditions: the worker's rows, first ones first, LIMIT `count` of them |
| SqliteStore.JobTable.GetJobs | ios/Job.swift:196-199 | every row that is not soft-deleted, in queue order |
| SqliteStore.JobTable.GetJobsWithDeleted | ios/Job.swift:200-203 | every row, soft-deleted ones included, in queue order |
| SqliteStore.JobTable.GetActiveMarkedJobs | ios/Job.swift:204-207 | exactly the claimed rows that are not soft-deleted, each as often as it is stored |
| SqliteStore.JobTable.Update | ios/Job.swift:288-311 | the rows with the record's id are updated column by column; nothing else changes |
| SqliteStore.JobTable.SoftDeleteWhere | ios/Job.swift:251-286 | the matching rows are flagged deleted and stay in place |
| SqliteStore.JobTable.Delete | ios/Job.swift:251-268 | the row is flagged deleted, and getJobBy no longer finds it |
| SqliteStore.JobTable.DeleteJobsByWorkerName | ios/Job.swift:269-286 | the worker's rows are flagged deleted, and none of them is claimable any more |
| SqliteStore.JobTable.DeletePermanently | ios/Job.swift:232-249 | the row with that id leaves the table; the others keep their order |
| QueueLogic.StatusText | src/models/Job.ts:1 | the status text is "failed", "cancelled" or "processing" exactly for those statuses |
| QueueLogic.NewJob | src/Queue.ts:253-268 | the new record: given id, worker and payload; options defaulting to 0; idle, not claimed, not failed, not deleted, no errors yet |
| QueueLogic.NewJobIsClaimable | src/Queue.ts:253-268 | a new job is a next-job candidate for both stores and is not taken for work in progress |
| QueueLogic.FailedJob | src/Queue.ts:478-491 | one more failed attempt and one more error; `failed` is stamped exactly when the attempts are used up; the claim is released; the status is cancelled exactly for the cancelled code |
| QueueLogic.AfterFailuresCounts | src/Queue.ts:480-490 | k failed runs add k to the count and k errors to the trail |
| QueueLogic.MockRetriesWhileAttemptsLeft | src/Queue.ts:483-490 | with the in-memory store, a job that failed k >= 1 times passes getNextJob's filter exactly while k is below its attempts, so the corrected pick retries it; the pick as written never reaches it |
| QueueLogic.FiveAttemptsRunFiveTimes | src/__tests__/Queue.test.ts:110-122 | a job with 5 attempts whose handler always fails stays a next-job candidate after each of its first 4 failures and not after the 5th, so the corrected pick runs it 5 times; as written the pass never picks the idle job and it runs 0 times (AsWrittenSkipsIdleJobs) |
| QueueLogic.SwiftNeverRetries | ios/Job.swift:119 | with the iOS store, a failed job is never picked again, whatever its attempts |
| QueueLogic.TimeoutIsFailure | src/Queue.ts:490 | a timed-out run is stored as failed, never as cancelled |
| QueueLogic.Requeued | src/Queue.ts:191 | the requeued record is not failed, idle and claimed |
| QueueLogic.RequeuedWaitsForReset | src/Queue.ts:190-202 | no store query picks a requeued record until a reset clears its claim; after that it is a candidate again |
| QueueLogic.PickNextJobAsWritten | src/Queue.ts:360-363 | as written, the work-in-progress answer is always kept |
| QueueLogic.PickNextJob | src/Queue.ts:360-364 | a job in progress first; nothing exactly when there is neither a job in progress nor a next job |
| QueueLogic.AsWrittenSkipsIdleJobs | src/Queue.ts:360-364 | with only idle jobs stored, the pick as written finds nothing and the intended pick finds one |
| QueueLogic.CancelJob | src/Queue.ts:302-311 | CANCEL is invoked exactly when it is a function, with the given exception or the cancelled error; a missing CANCEL only warns; no running promise, or a CANCEL that is not a function, throws |
| JobQueue.DropName | src/Queue.ts:233 | removing one name keeps the registration order free of repeats and lists exactly the other workers |
| JobQueue.CancelledEvents | src/Queue.ts:336 | one jobCancelled event per job, in order, each carrying the cancelled record |
| JobQueue.CancelReach | src/Queue.ts:312-325 | how far the cancel loop gets: no job before it has a CANCEL that is not a function, and the job at it, if any, has one |
| JobQueue.CancelStep | src/Queue.ts:315-324 | writing the next cancelled record by id extends the cancelled prefix by one job |
| JobQueue.ResetStep | src/Queue.ts:340-342 | clearing one more claim by id extends the reset to that job |
| JobQueue.ResetCoversMarked | src/Queue.ts:343-347 | once every active-marked job is reset, no stored job is claimed |
| JobQueue.Queue.constructor | src/Queue.ts:149-163 | no workers, not active, nothing executed or running, no limit, update interval 10 |
| JobQueue.Queue.Configure | src/Queue.ts:204-213 | each option left out takes its default again; no other field changes |
| JobQueue.Queue.AddWorker | src/Queue.ts:218-224 | a taken name throws and no field changes; otherwise the worker is registered last and announced, and no other field changes |
| JobQueue.Queue.RemoveWorker | src/Queue.ts:232-237 | the worker is unregistered, and its jobs are dropped exactly when asked; no other field changes |
| JobQueue.Queue.Unregister | src/Queue.ts:233 | exactly that name leaves the registry and the registration order; no other field changes |
| JobQueue.Queue.AddJob | src/Queue.ts:247-280 | an unregistered worker throws and neither the store nor any field changes; otherwise the new job is stored last and announced, and the queue is started (active, executed jobs forgotten, claims released) unless told not to or already running; no other field changes |
| JobQueue.Queue.Start | src/Queue.ts:284-291 | an idle queue becomes active, forgets the last run's executed jobs and releases every claim, and no other field changes; an active queue and its store are left exactly as they are |
| JobQueue.Queue.ResetActiveJobs | src/Queue.ts:343-347 | after the reset loop, every stored job is unclaimed and nothing else about it changed |
| JobQueue.Queue.ClearClaim | src/Queue.ts:340-342 | one reset write extends the reset to that job |
| JobQueue.Queue.Stop | src/Queue.ts:295-297 | the queue is no longer active and stays well formed, so it can be started again; no other field changes |
| JobQueue.Queue.CancelJob | src/Queue.ts:302-311 | the outcome depends only on the running promise's CANCEL; an invoked CANCEL is recorded with its argument |
| JobQueue.Queue.CancelActiveJob | src/Queue.ts:326-338 | a running job's CANCEL is invoked first, with the cancelled error; a CANCEL that is not a function throws before anything is written; otherwise the record is stored cancelled and unclaimed, and announced; no other field changes |
| JobQueue.Queue.WriteCancelled | src/Queue.ts:335 | the cancelled record replaces the stored one by id |
| JobQueue.Queue.CancelAllActiveJobs | src/Queue.ts:312-325 | the stored jobs, whatever their state, are cancelled and announced in store order, each running one's CANCEL invoked first when it is a function; it throws exactly when some job's CANCEL is not a function, and then the jobs before that one stay cancelled and the rest are untouched; no other field changes |
| JobQueue.Queue.CancelNext | src/Queue.ts:315-324 | one turn of the cancel loop: it throws exactly when the job's CANCEL is not a function, leaving the progress as it was; otherwise the cancelled prefix, its events and its CANCEL calls grow by that job |
| JobQueue.Queue.RequeueJob | src/Queue.ts:190-202 | the job is stored not failed, idle and claimed; an idle queue is started, forgets its executed jobs, and its reset releases the claim; no other field changes |
| JobQueue.Queue.RemoveJob | src/Queue.ts:179-182 | the job leaves the store and its deletion is announced; no other field changes |
| JobQueue.Queue.RemoveJobPermanent | src/Queue.ts:183-186 | the job leaves the store and its deletion is announced; no other field changes |
| JobQueue.Queue.Offers | src/Queue.ts:441-446 | the batch each worker offers, in registration order: nothing while busy |
| JobQueue.Queue.GetJobsForAlternateWorker | src/Queue.ts:440-452 | the loop returns the first non-empty batch in registration order, or nothing |
| JobQueue.Queue.OwnBatchBounds | src/Queue.ts:422-429 | a worker's own batch holds only its jobs, all from the store, and never more than it has executers left |
| JobQueue.Queue.AlternateBatchIsOffered | src/Queue.ts:440-452 | a non-empty alternate batch is the batch of a worker that is not busy |
| JobQueue.Queue.GetJobsForWorker | src/Queue.ts:422-429 | an unregistered name throws; a worker that is not busy gets its own batch; a busy one gets the first batch another worker offers |
| JobQueue.Queue.GetJobsForWorkerWithDeleted | src/Queue.ts:431-438 | the same choice through the with-deleted query |
| JobQueue.Queue.FinishQueue | src/Queue.ts:416-420 | onQueueFinish receives the executed jobs and the queue goes idle; no other field changes |
| JobQueue.Queue.BeginExecution | src/Queue.ts:454-471 | the job is stored as processing, announced and counted; with its worker registered it runs there and its promise is kept; otherwise the execution throws and stays counted |
| JobQueue.Queue.WriteStarted | src/Queue.ts:460-461 | the processing record replaces the stored one by id |
| JobQueue.Queue.Launch | src/Queue.ts:462-471 | the start is announced and counted, then handed to the worker, or the execution throws |
| JobQueue.Queue.SettleExecution | src/Queue.ts:471-500 | by the race's result: the store, the events and the worker's callbacks follow success or failure; the execution is uncounted, no longer running and recorded as executed |
| JobQueue.Queue.NoteRaceCancel | lib/commonjs/Worker.js:98-102 | a lost race calls CANCEL with no argument exactly when RaceCancels holds |
| JobQueue.Queue.Retire | src/Queue.ts:493-500 | the execution leaves the running map and the count and joins the executed jobs |
| JobQueue.Queue.RecordSuccess | src/Queue.ts:473-497 | the job leaves the store; onSuccess and onCompletion are called in order; the worker's count goes down |
| JobQueue.Queue.WriteFinished | src/Queue.ts:475-476 | the finished record is written and removed, so only the removal is visible |
| JobQueue.Queue.RecordFailure | src/Queue.ts:478-497 | the failed record replaces the stored one; onFailure and onCompletion are called in order; the worker's count goes down |
| JobQueue.Queue.WriteFailed | src/Queue.ts:491 | the failed record replaces the stored one by id |
| JobQueue.Queue.ReleaseDeferred | src/Queue.ts:402-406 | deferred executers start in the order they were deferred, while admission allows. Each is stored as processing, announced and counted. The ones whose worker is missing throw, lose their running promise and stay counted. The chain ends at the first that reaches its worker, or when none is left or admission fails. That last one is the one new execution in flight; it keeps its running promise, and its worker counts it and calls onStart. No other worker changes, none is lost, and the concurrency limit is kept |
| JobQueue.Queue.ReleaseCrashing | src/Queue.ts:402-406 | the chain of executers whose worker is missing: each is stored as processing, announced, counted for ever and loses its running promise, in deferral order; it stops at an executer whose worker is registered, when none is left, or when admission fails; no worker is touched |
| JobQueue.Queue.CrashNext | src/Queue.ts:454-467 | one executer of that chain extends the crashed prefix by exactly one job |
| JobQueue.Queue.StartHead | src/Queue.ts:402-406 | the executer that ends the chain leaves the queue, is stored as processing, announced and counted, keeps its running promise and is in flight; its worker counts it and calls onStart |
| JobQueue.Queue.HandOver | src/Queue.ts:468-470 | the worker counts the job and calls onStart; the job's running promise is the worker's handle and it is in flight; nothing else changes |
| JobQueue.CrashedStep | src/Queue.ts:454-467 | one more crashed executer: its processing record is one more write by id, and the queue moves on by exactly one crashed start |
| JobQueue.LaunchedStep | src/Queue.ts:454-471 | an executer that reaches its worker after crashed ones moves the queue as a crashed one would, except that it keeps its running promise, is not crashed, and is in flight |
| JobQueue.StartedEvents | src/Queue.ts:462 | one jobStarted event per released executer, in order, each carrying its processing record |
| JobQueue.Queue.CompleteExecution | src/Queue.ts:395-408 | a settled execution is recorded, then deferred executers are released |
| JobQueue.Queue.EnqueueJobExecuter | src/Queue.ts:383-393 | with admission the job starts at once; without it, it is deferred last and no field, stored job or worker changes; none is lost; the concurrency limit is kept |
| JobQueue.Queue.DispatchBatch | src/Queue.ts:364-367 | every job of the batch is started, deferred or thrown out; none is lost; the concurrency limit is kept |
| JobQueue.Queue.RunQueue | src/Queue.ts:355-373 | a stopped queue finishes; otherwise the job chosen by the corrected pick (PickNextJob) decides whose batch is dispatched; with nothing picked, the queue finishes when no execution is counted and waits otherwise; an unregistered worker throws |

## Left out

- Awaits and promise chaining are collapsed into the steps above. Microtask order between steps is not modelled: any order is allowed. `limitExecution` and the `resolve` callbacks it passes along carry no state and are folded into `EnqueueJobExecuter`.
- The timing of `scheduleQueue` (the `setTimeout` on iOS with an active app, a direct call otherwise), `updateInterval`, `timeoutId` and the `clearTimeout` in `finishQueue`. Each pass of runQueue is one call of `RunQueue`.
- JSON: payloads and `metaData` are kept decoded, so `JSON.parse` and `JSON.stringify` are the identity. Malformed JSON is not modelled.
- QueueLogic.FailedJob: keeps each error in `metaData` as its message and code. `JSON.stringify` of an `Error` keeps only its enumerable own fields, such as a `QueueError`'s `code`, and drops the message, so the stored trail holds less than the model's.
- The handler itself. How it settles is the `handler` parameter of `SettleExecution`, and an execution that never settles is one for which `SettleExecution` is never called. Two cases are handled differently by the source, and the model admits both outcomes for each:
  - Untimed (`lib/commonjs/Worker.js:79-81`): a handler that throws synchronously makes `execute` throw inside `excuteJob`'s `try`, so the job fails as if its promise rejected. A handler that returns no promise makes `await promise` succeed at once.
  - Timed (`lib/commonjs/Worker.js:83-104`): both a synchronous throw and a missing promise leave the outer promise unsettled for ever. The job stays processing, and both the queue's and the worker's counts stay up.
- The clock, `Uuid.v4`, `AppState` and `Platform` are parameters. Ids are assumed fresh (AddJob's precondition).
- `Object.keys` lists integer-like keys first in ascending order. The model keeps registration order for every name.
- JobQueue.Queue.AddWorker: the registry is a plain object (`src/Queue.ts:152`), so a name that `Object.prototype` already carries, such as "toString", counts as taken and throws "already exists". The model registers it. Names are taken to be ordinary strings.
- JobQueue.Queue.AddJob: for the same reason, a job for the worker "constructor" does not throw "Missing worker" in the source. The model throws for every unregistered name.
- The queue's `getJobs`, `getJobsWithDeleted`, `isRunning`, `registeredWorkers` and the `instance` singleton are plain reads. The in-memory store's `getJobs` and `getJobsWithDeleted` return the stored array itself. `CancelAllActiveJobs` reads that array directly, and the aliasing of a returned array with later writes is not modelled.
- The `debug` and `onQueueFinish` options: `onQueueFinish` calls are recorded as `QueueFinished` events instead of calling a function.
- Swift: the SQLite error paths are not modelled. These are a failed prepare, bind or step, which throws or returns nil. The PRIMARY KEY violation of `add` is modelled. `mapColumnsToJob` is not modelled, and rows are read as stored. The `while sqlite3_step` loops are modelled by the rows they produce. Rows that tie on priority and creation second come in an order SQLite leaves open, and the contracts hold for any such order.
- The in-memory store compares `new Date(created).getTime()`. The model compares the `created` texts, which agree with time order for the fixed-width UTC ISO-8601 texts the queue writes.
- Swift `datetime(created)` is modelled as the first 19 characters of the ISO text. Malformed timestamps are not modelled. The case-insensitive match of the rewrite folds ASCII letters only.
- The Android, WatermelonDB and hook code is not part of this model.
- MockStore.JobStoreMock.GetActiveMarkedJobs: states membership both ways, not multiplicity; ids are unique in every state the queue reaches, so no job is stored twice.
- MockStore.SortJobs: `Array.prototype.sort` with a comparator that never returns 0 leaves ties in an order the engine chooses. The model fixes one such order, and the contracts and lemmas about it hold for any order with the same key.
- MockStore.JobStoreMock.GetJobsForWorker: ignores eligibility, as the mock does. With a negative count, `slice(0, count)` drops the last `-count` jobs, and the length contract states that; WorkerBatchIsTop states what the batch holds.
- JobQueue.Queue.DispatchBatch: states that no job of the batch is lost (started, deferred or counted as thrown), not which of them started; EnqueueJobExecuter and BeginExecution state each start.
- JobQueue.Queue.EnqueueJobExecuter: on a start it states the first event emitted, not the deferred executers a failed start releases; ReleaseDeferred states those.
- JobQueue.Queue.CompleteExecution: states a summary. SettleExecution states the settling step in full, and ReleaseDeferred states the release that follows it in full.
- JobQueue.Queue.RunQueue: runs the corrected pick PickNextJob. As written (PickNextJobAsWritten), the in-memory store's `{}` hides every idle job, and the pass finishes the queue without running them (see Findings). For a dispatched pass it states the batch and that none of its jobs is lost, not the full new state; DispatchBatch carries the rest.
- JobQueue.Queue.SettleExecution: every rejection carries an `Err`. A handler that rejects with `undefined` or `null` (`reject()`, `Promise.reject(null)`, `throw undefined`) is not modelled. In the source, onFailure is still called (`src/Queue.ts:489`). Then `error.code` (`src/Queue.ts:490`) throws a TypeError, so the failed record is not written (`:491`) and jobFailed is not emitted (`:492`). The `finally` (`:493-500`) still runs in full. The store keeps the processing record with `failedAttempts` unchanged, and the in-memory store's getNextJob (`lib/module/utils/JobQueueMock.js:24`) offers it again whatever its attempts.
- The barrier of a pass. `runQueue` awaits `Promise.all` over its batch (`src/Queue.ts:366-367`) before it schedules the next pass (`:372`). Those promises resolve in `runExecuter`'s `finally` (`:403`). So one chain of passes never starts a pass while its batch is pending; only `stop` and then `start` can start a second chain beside it. The model does not keep this barrier: `RunQueue` may be taken while executions are in flight. Such a pass can dispatch a job that is already in flight again, because its processing record keeps the `active` it had, 0 for a job that getNextJob picked, and so still passes that query. For the same reason, no ceiling of a worker's execution count at its concurrency is stated.
- A started execution whose worker is missing throws, and its cleanup throws again before uncounting it. The model keeps such executions in the ghost count `crashed`, which is part of `activeJobCount` forever, as in the source.

## Findings

| source | as written | input that shows it | evidently intended | confidence | as-written member | corrected member |
|---|---|---|---|---|---|---|
| src/Queue.ts:360-363 | `if (!nextJob)` falls back to getNextJob only when the work-in-progress answer is falsy, but the in-memory store answers "nothing" with `{}`, which is truthy | a store holding only idle jobs: getWorkInProgressJob gives `{}`, getNextJob is never asked, and the pass finishes the queue without running them (QueueLogic.AsWrittenSkipsIdleJobs) | fall back to the next job whenever there is no job in progress | not executed | QueueLogic.PickNextJobAsWritten | QueueLogic.PickNextJob |
