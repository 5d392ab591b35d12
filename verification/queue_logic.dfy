/** The parts of the queue engine (src/Queue.ts) that compute values
    without changing state: the record a new job starts as, the record a
    failure leaves, the admission test, the choice of the next job and the
    outcome of a cancel request. */
module QueueLogic {
  import opened Wrappers
  import opened Jobs
  import MockStore
  import SqliteStore
  import opened Workers

  /** The status as the text both stores keep. */
  function StatusText(s: JobStatus): (t: string)
    ensures s == JobStatus.Failed <==> t == "failed"
    ensures s == JobStatus.Cancelled <==> t == "cancelled"
    ensures s == JobStatus.Processing <==> t == "processing"
  {
    match s
    case Idle => "idle"
    case Processing => "processing"
    case Finished => "finished"
    case Failed => "failed"
    case Cancelled => "cancelled"
  }

  /** What the iOS store's next-job query (ios/Job.swift:119) makes of a job record. */
  predicate SwiftClaimable(j: Job) {
    SqliteStore.Claimable(j.active, StatusText(j.status), if j.isDeleted then 1 else 0)
  }

  /** addJob's options; a field left out defaults to 0. */
  datatype JobOptions = JobOptions(attempts: Option<int>, timeout: Option<int>, priority: Option<int>)

  /** The record addJob stores. The id (a fresh UUID) and the creation time
      are inputs; the payload is kept as the text it is serialised to. */
  function NewJob(id: string, workerName: string, payload: string, options: JobOptions, now: string): (j: Job)
    ensures j.id == id && j.workerName == workerName && j.payload == payload && j.created == now
    ensures j.attempts == options.attempts.GetOr(0)
    ensures j.timeout == options.timeout.GetOr(0)
    ensures j.priority == options.priority.GetOr(0)
    ensures j.status == Idle && j.active == FALSE && j.failed == "" && !j.isDeleted
    ensures j.metaData == MetaData([], 0)
  {
    Job(id, workerName, FALSE, payload, MetaData([], 0), options.attempts.GetOr(0), now, "",
        options.timeout.GetOr(0), options.priority.GetOr(0), false, Idle)
  }

  /** A new job is ready to be picked by either store and is not taken for
      one already in progress. */
  lemma NewJobIsClaimable(id: string, workerName: string, payload: string, options: JobOptions, now: string)
    ensures MockStore.NextJobCandidate(NewJob(id, workerName, payload, options, now))
    ensures !MockStore.WorkInProgress(NewJob(id, workerName, payload, options, now))
    ensures SwiftClaimable(NewJob(id, workerName, payload, options, now))
  {
  }

  /** isExecuterAvailable: a non-positive limit means no limit. */
  predicate IsExecuterAvailable(concurrency: int, activeJobCount: int) {
    concurrency <= 0 || activeJobCount < concurrency
  }

  /** The record excuteJob writes back after a failed run: one more failed
      attempt, the error appended to the trail, `failed` stamped with `now`
      once the attempts are used up (and cleared otherwise), the claim
      released, and the status cancelled or failed by the error's code. */
  function FailedJob(raw: Job, error: Err, now: string): (f: Job)
    requires now != ""
    ensures f.metaData.failedAttempts == raw.metaData.failedAttempts + 1
    ensures f.metaData.errors == raw.metaData.errors + [error]
    ensures f.failed != "" <==> f.metaData.failedAttempts >= raw.attempts
    ensures f.active == FALSE
    ensures f.status == Cancelled <==> error.code == CANCELLED_CODE
    ensures f.status == JobStatus.Failed <==> error.code != CANCELLED_CODE
    ensures f.id == raw.id && f.workerName == raw.workerName && f.payload == raw.payload
    ensures f.attempts == raw.attempts && f.created == raw.created && f.timeout == raw.timeout
    ensures f.priority == raw.priority && f.isDeleted == raw.isDeleted
  {
    var failedAttempts := raw.metaData.failedAttempts + 1;
    var failed := if failedAttempts >= raw.attempts then now else "";
    raw.(active := FALSE, metaData := MetaData(raw.metaData.errors + [error], failedAttempts),
         failed := failed, status := if error.code == CANCELLED_CODE then Cancelled else JobStatus.Failed)
  }

  /** The job after `k` failed runs, each with `error` at time `now`. */
  function AfterFailures(job: Job, error: Err, now: string, k: nat): Job
    requires now != ""
  {
    if k == 0 then job else FailedJob(AfterFailures(job, error, now, k - 1), error, now)
  }

  /** Each failed run adds one to the count and one error to the trail;
      nothing else about the job's identity changes. */
  lemma {:induction false} AfterFailuresCounts(job: Job, error: Err, now: string, k: nat)
    requires now != ""
    ensures AfterFailures(job, error, now, k).metaData.failedAttempts == job.metaData.failedAttempts + k
    ensures |AfterFailures(job, error, now, k).metaData.errors| == |job.metaData.errors| + k
    ensures AfterFailures(job, error, now, k).attempts == job.attempts
    ensures AfterFailures(job, error, now, k).id == job.id
    ensures k > 0 ==> AfterFailures(job, error, now, k).active == FALSE
  {
    if k > 0 {
      AfterFailuresCounts(job, error, now, k - 1);
    }
  }

  /** Against the in-memory store a job that failed `k >= 1` times (never
      by cancellation) passes getNextJob's filter exactly while `k` is below
      its attempts: under the corrected pick a job with `attempts` a runs
      max(1, a) times in all. */
  lemma MockRetriesWhileAttemptsLeft(job: Job, error: Err, now: string, k: nat)
    requires now != "" && k >= 1 && job.metaData.failedAttempts == 0
    ensures MockStore.NextJobCandidate(AfterFailures(job, error, now, k)) <==> k < job.attempts
  {
    AfterFailuresCounts(job, error, now, k);
  }

  /** The scenario of the attempts test: a job added with 5 attempts whose
      handler always rejects stays a next-job candidate after each of its
      first 4 failures and not after the 5th, so the corrected pick runs it
      5 times. The pick as written never reaches it (AsWrittenSkipsIdleJobs). */
  lemma FiveAttemptsRunFiveTimes(id: string, w: string, payload: string, now: string, error: Err)
    requires now != ""
    ensures var j := NewJob(id, w, payload, JobOptions(Some(5), None, None), now);
      && (forall k: nat :: 1 <= k < 5 ==> MockStore.NextJobCandidate(AfterFailures(j, error, now, k)))
      && !MockStore.NextJobCandidate(AfterFailures(j, error, now, 5))
  {
    var j := NewJob(id, w, payload, JobOptions(Some(5), None, None), now);
    forall k: nat | 1 <= k < 5 ensures MockStore.NextJobCandidate(AfterFailures(j, error, now, k)) {
      MockRetriesWhileAttemptsLeft(j, error, now, k);
    }
    MockRetriesWhileAttemptsLeft(j, error, now, 5);
  }

  /** Against the iOS store a failed job is never picked again, whatever its
      attempts: the failure writes status failed or cancelled, and
      ios/Job.swift:119 skips both. */
  lemma SwiftNeverRetries(raw: Job, error: Err, now: string)
    requires now != ""
    ensures !SwiftClaimable(FailedJob(raw, error, now))
  {
  }

  /** A timed-out run counts as a failure, never as a cancellation. */
  lemma TimeoutIsFailure(raw: Job, now: string)
    requires now != ""
    ensures FailedJob(raw, TimeoutError(raw.id), now).status == JobStatus.Failed
  {
  }

  /** The record requeueJob writes: not failed, idle, and marked claimed. */
  function Requeued(job: Job): (r: Job)
    ensures r.failed == "" && r.status == Idle && r.active == TRUE
    ensures r.id == job.id && r.metaData == job.metaData && r.attempts == job.attempts
  {
    job.(failed := "", status := Idle, active := TRUE)
  }

  /** A requeued record is claimed but not processing, so neither store
      query picks it up until a reset clears the claim; after that it is
      the next-job candidate it was meant to be. */
  lemma RequeuedWaitsForReset(job: Job)
    ensures !MockStore.NextJobCandidate(Requeued(job)) && !MockStore.WorkInProgress(Requeued(job))
    ensures !SwiftClaimable(Requeued(job))
    ensures MockStore.NextJobCandidate(Requeued(job).(active := FALSE))
    ensures !job.isDeleted ==> SwiftClaimable(Requeued(job).(active := FALSE))
  {
  }

  /** runQueue's choice as written: the work-in-progress answer is kept
      unless it is falsy, and the in-memory store's "nothing" is `{}`, which
      is truthy; so the next-job query is never consulted. */
  function PickNextJobAsWritten(workInProgress: Option<Job>, next: Option<Job>): (r: Option<Job>)
    ensures r == workInProgress
  {
    if !Truthy(workInProgress) then next else workInProgress
  }

  /** JavaScript truthiness of the in-memory store's answer: a job record
      or `{}`, both objects. */
  predicate Truthy(answer: Option<Job>) {
    match answer
    case Some(_) => true
    case None => true
  }

  /** The intended choice: a job in progress first, otherwise the next job. */
  function PickNextJob(workInProgress: Option<Job>, next: Option<Job>): (r: Option<Job>)
    ensures r.None? <==> workInProgress.None? && next.None?
    ensures workInProgress.Some? ==> r == workInProgress
  {
    if workInProgress.Some? then workInProgress else next
  }

  /** With the in-memory store, as written, a queue whose store holds only
      idle jobs never picks any of them; the intended choice does. */
  lemma AsWrittenSkipsIdleJobs(jobs: seq<Job>, idle: Job)
    requires idle in jobs && MockStore.NextJobCandidate(idle)
    requires forall i :: 0 <= i < |jobs| ==> !MockStore.WorkInProgress(jobs[i])
    ensures PickNextJobAsWritten(MockStore.WorkInProgressIn(jobs), MockStore.NextJobIn(jobs)).None?
    ensures PickNextJob(MockStore.WorkInProgressIn(jobs), MockStore.NextJobIn(jobs)).Some?
  {
    var k :| 0 <= k < |jobs| && jobs[k] == idle;
  }

  /** What cancelJob does for a job whose running handle carries `handle`
      under CANCEL (None: there is no handle). */
  datatype CancelOutcome =
    | Invoked(error: Err)   // CANCEL called with this error
    | Warned                // only a console warning
    | Threw(error: Err)     // an exception leaves cancelJob

  function CancelJob(id: string, handle: Option<CancelHook>, exception: Option<Err>): (r: CancelOutcome)
    ensures r.Invoked? <==> handle == Some(HookFunction)
    ensures r.Invoked? ==> r.error == exception.GetOr(Err("job canceled", CANCELLED_CODE))
    ensures r.Warned? <==> handle == Some(NoHook)
    ensures handle.None? ==> r == Threw(TYPE_ERROR)
    ensures r.Threw? && r.error.code == ERROR_CODE <==> handle == Some(HookNotFunction)
  {
    match handle
    case None => Threw(TYPE_ERROR)
    case Some(HookFunction) => Invoked(exception.GetOr(Err("job canceled", CANCELLED_CODE)))
    case Some(NoHook) => Warned
    case Some(HookNotFunction) => Threw(Err("Job with id " + id + " not currently running", ERROR_CODE))
  }
}
