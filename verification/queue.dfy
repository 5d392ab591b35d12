/** The queue itself (the Queue class of src/Queue.ts) running over the
    in-memory store of lib/module/utils/JobQueueMock.js.

    Each asynchronous operation is cut at the awaits where the outside
    world decides what happens next: a handler settling, a timer firing,
    the next pass of runQueue. Every such decision is an input of the step
    that consumes it. The steps may be taken in any order, a superset of
    the orders the queue takes: nothing here makes a pass of runQueue wait
    for the batch of the pass before it. */
module JobQueue {
  import opened Wrappers
  import opened Jobs
  import opened Seqs
  import opened Workers
  import opened MockStore
  import opened QueueLogic

  /** What the queue emits, in order. `QueueFinished` stands for the call of
      the configured onQueueFinish callback. */
  datatype Event =
    | WorkerAdded(name: string)
    | JobAdded(job: Job)
    | JobStarted(job: Job)
    | JobSucceeded(job: Job)
    | JobFailed(job: Job, error: Err)
    | JobCompleted(job: Job)
    | JobCancelled(job: Job)
    | JobDeleted(job: Job)
    | QueueFinished(executedJobs: seq<Job>)

  /** A call that either returns a value or throws. */
  datatype Outcome<T> = Ok(value: T) | Thrown(error: Err)

  /** A started execution waiting for its handler: the record it was started
      from, the worker captured when it started, and whether the handler
      is raced against the job's timeout. */
  datatype Execution = Execution(raw: Job, worker: Worker, timed: bool)

  /** One call of a running promise's CANCEL function; the timeout race
      calls it with no argument. */
  datatype CancelRequest = CancelRequest(id: string, error: Option<Err>)

  /** How one pass of runQueue ends: the queue finished, a batch was handed
      to the executers, nothing to start while executions run, or the pass
      threw. */
  datatype Pass = Drained | Dispatched(batch: seq<Job>) | Rescheduled | Stalled(error: Err)

  /** Every field of a Queue at one moment (the store's jobs and the
      workers' own fields are apart): a method states its new state as the
      old snapshot with the fields it changes replaced, and all others kept. */
  datatype QueueState = QueueState(
    workers: map<string, Worker>,
    workerOrder: seq<string>,
    isActive: bool,
    executedJobs: seq<Job>,
    activeJobCount: int,
    concurrency: int,
    updateInterval: int,
    queuedJobExecuter: seq<Job>,
    runningJobPromises: map<string, CancelHook>,
    inFlight: seq<Execution>,
    cancelRequests: seq<CancelRequest>,
    events: seq<Event>,
    crashed: nat)

  const DEFAULT_UPDATE_INTERVAL: int := 10
  /** The default queue-wide concurrency: no limit. */
  const UNLIMITED: int := -1

  /** The record excuteJob writes when it starts a job. */
  function Started(raw: Job): Job {
    raw.(status := Processing)
  }

  /** `runningJobPromises[id]`: undefined, or what the promise carries under CANCEL. */
  function HandleOf(running: map<string, CancelHook>, id: string): Option<CancelHook> {
    if id in running then Some(running[id]) else None
  }

  function OtherName(name: string): string -> bool {
    (n: string) => n != name
  }

  /** Filtering one name out of a list without repeats keeps it without
      repeats and lists exactly the other names. */
  lemma DropName(order: seq<string>, keys: set<string>, name: string)
    requires Distinct(order) && forall n :: n in order <==> n in keys
    ensures Distinct(Filter(order, OtherName(name)))
    ensures forall n :: n in Filter(order, OtherName(name)) <==> n in keys && n != name
  {
    var kept := Filter(order, OtherName(name));
    FilterKeepsDistinct(order, OtherName(name));
    FilterKeepsAll(order, OtherName(name));
    forall n | n in kept ensures n in keys && n != name {
      var k :| 0 <= k < |kept| && kept[k] == n;
      assert OtherName(name)(kept[k]);
    }
    forall n | n in keys && n != name ensures n in kept {
      var k :| 0 <= k < |order| && order[k] == n;
      assert OtherName(name)(order[k]);
    }
  }

  /** The record cancelActiveJob writes. */
  function MarkedCancelled(job: Job): Job {
    job.(active := FALSE, status := Cancelled)
  }

  /** The error cancelActiveJob hands to cancelJob. */
  function CancelledError(id: string): Err {
    Err("Job with id " + id + " cancelled", CANCELLED_CODE)
  }

  /** The CANCEL call cancelActiveJob makes for `job`: one exactly when the
      job is running and its CANCEL is a function. */
  function CancelRequestOf(running: map<string, CancelHook>, job: Job): seq<CancelRequest> {
    if HandleOf(running, job.id) == Some(HookFunction) then [CancelRequest(job.id, Some(CancelledError(job.id)))] else []
  }

  /** The CANCEL calls cancelling each of `jobs` in turn makes. */
  function CancelRequestsFor(running: map<string, CancelHook>, jobs: seq<Job>): seq<CancelRequest> {
    if jobs == [] then []
    else CancelRequestsFor(running, jobs[..|jobs| - 1]) + CancelRequestOf(running, jobs[|jobs| - 1])
  }

  /** The announcements cancelling each of `jobs` in turn makes. */
  function CancelledEvents(jobs: seq<Job>): (r: seq<Event>)
    ensures |r| == |jobs|
    ensures forall i :: 0 <= i < |jobs| ==> r[i] == JobCancelled(MarkedCancelled(jobs[i]))
  {
    if jobs == [] then []
    else CancelledEvents(jobs[..|jobs| - 1]) + [JobCancelled(MarkedCancelled(jobs[|jobs| - 1]))]
  }

  /** How far cancelAllActiveJobs gets through `jobs`: the index of the
      first job whose running promise carries a CANCEL that is not a
      function (cancelJob throws there), or all of them. */
  function CancelReach(running: map<string, CancelHook>, jobs: seq<Job>): (k: nat)
    ensures k <= |jobs|
    ensures forall i :: 0 <= i < k ==> HandleOf(running, jobs[i].id) != Some(HookNotFunction)
    ensures k < |jobs| ==> HandleOf(running, jobs[k].id) == Some(HookNotFunction)
  {
    CancelReachFrom(running, jobs, 0)
  }

  function CancelReachFrom(running: map<string, CancelHook>, jobs: seq<Job>, from: nat): (k: nat)
    requires from <= |jobs|
    requires forall i :: 0 <= i < from ==> HandleOf(running, jobs[i].id) != Some(HookNotFunction)
    ensures from <= k <= |jobs|
    ensures forall i :: 0 <= i < k ==> HandleOf(running, jobs[i].id) != Some(HookNotFunction)
    ensures k < |jobs| ==> HandleOf(running, jobs[k].id) == Some(HookNotFunction)
    decreases |jobs| - from
  {
    if from == |jobs| || HandleOf(running, jobs[from].id) == Some(HookNotFunction) then from
    else CancelReachFrom(running, jobs, from + 1)
  }

  /** `cur` is `jobs` with its first `k` records marked cancelled. */
  ghost predicate CancelledUpTo(cur: seq<Job>, jobs: seq<Job>, k: nat) {
    && |cur| == |jobs|
    && forall i :: 0 <= i < |jobs| ==> cur[i] == if i < k then MarkedCancelled(jobs[i]) else jobs[i]
  }

  /** Writing the cancelled record of the next job by id extends the prefix by one. */
  lemma CancelStep(cur: seq<Job>, next: seq<Job>, jobs: seq<Job>, k: nat)
    requires UniqueIds(jobs) && k < |jobs| && CancelledUpTo(cur, jobs, k)
    requires |next| == |cur|
    requires forall i :: 0 <= i < |cur| ==> next[i] == if cur[i].id == jobs[k].id then MarkedCancelled(jobs[k]) else cur[i]
    ensures CancelledUpTo(next, jobs, k + 1)
  {
    forall i | 0 <= i < |jobs| ensures cur[i].id == jobs[k].id <==> i == k {
      assert cur[i].id == jobs[i].id;
    }
  }

  /** `cur` is `orig` with the claim cleared on the jobs listed in `done`. */
  ghost predicate ResetWhere(cur: seq<Job>, orig: seq<Job>, done: seq<Job>) {
    && |cur| == |orig|
    && forall i :: 0 <= i < |orig| ==>
         cur[i] == if orig[i] in done then orig[i].(active := FALSE) else orig[i]
  }

  /** Clearing the claim of one more original job, by id, extends the reset to it. */
  lemma ResetStep(cur: seq<Job>, orig: seq<Job>, done: seq<Job>, job: Job)
    requires UniqueIds(orig) && ResetWhere(cur, orig, done) && job in orig
    ensures ResetWhere(ReplaceById(cur, job.(active := FALSE)), orig, done + [job])
  {
    var at :| 0 <= at < |orig| && orig[at] == job;
    forall i | 0 <= i < |orig| ensures orig[i].id == job.id <==> orig[i] == job {
      if orig[i].id == job.id { assert i == at; }
    }
  }

  /** Once every active-marked job is reset, no job is claimed. */
  lemma ResetCoversMarked(cur: seq<Job>, orig: seq<Job>, marked: seq<Job>)
    requires ResetWhere(cur, orig, marked)
    requires forall i :: 0 <= i < |orig| && orig[i].active == TRUE ==> orig[i] in marked
    ensures |cur| == |orig| && forall i :: 0 <= i < |cur| ==> cur[i] == orig[i].(active := FALSE)
    ensures UniqueIds(orig) ==> UniqueIds(cur)
  {
    assert forall i :: 0 <= i < |cur| ==> cur[i].id == orig[i].id;
  }

  /** The record excuteJob hands to triggerCompletion and jobCompleted. */
  function CompletedRecord(raw: Job, result: Settlement): Job {
    if result.Resolved? then raw.(status := Finished) else Started(raw)
  }

  /** The store once an execution of `raw` has settled with `result`. */
  function JobsAfter(jobs: seq<Job>, raw: Job, result: Settlement, now: string): seq<Job>
    requires result.Rejected? ==> now != ""
  {
    if result.Resolved? then WithoutId(jobs, raw.id)
    else ReplaceById(jobs, FailedJob(raw, result.error, now))
  }

  /** What the queue emits once an execution of `raw` has settled with `result`. */
  function EventsAfter(raw: Job, result: Settlement, now: string): seq<Event>
    requires result.Rejected? ==> now != ""
  {
    if result.Resolved? then [JobSucceeded(raw.(status := Finished)), JobCompleted(CompletedRecord(raw, result))]
    else [JobFailed(FailedJob(raw, result.error, now), result.error), JobCompleted(CompletedRecord(raw, result))]
  }

  /** The worker callbacks that follow the settling of an execution of `raw`. */
  function CallbacksAfter(raw: Job, result: Settlement, now: string): seq<Callback>
    requires result.Rejected? ==> now != ""
  {
    if result.Resolved? then [OnSuccess(Started(raw)), OnCompletion(CompletedRecord(raw, result))]
    else
      var failed := FailedJob(raw, result.error, now);
      [OnFailure(Started(raw).(metaData := failed.metaData, failed := failed.failed), result.error),
       OnCompletion(CompletedRecord(raw, result))]
  }

  /** The store after the processing record of each of `raws` has been
      written by id, in order. */
  function StartedWrites(jobs: seq<Job>, raws: seq<Job>): (r: seq<Job>)
    ensures |r| == |jobs|
    ensures forall i :: 0 <= i < |r| ==> r[i].id == jobs[i].id
    decreases |raws|
  {
    if raws == [] then jobs
    else ReplaceById(StartedWrites(jobs, raws[..|raws| - 1]), Started(raws[|raws| - 1]))
  }

  /** The ids of `jobs`. */
  function IdsOf(jobs: seq<Job>): set<string> {
    set j | j in jobs :: j.id
  }

  /** One jobStarted event per job of `raws`, in order. */
  function StartedEvents(raws: seq<Job>): (r: seq<Event>)
    ensures |r| == |raws|
    ensures forall k :: 0 <= k < |raws| ==> r[k] == JobStarted(Started(raws[k]))
    decreases |raws|
  {
    if raws == [] then [] else StartedEvents(raws[..|raws| - 1]) + [JobStarted(Started(raws[|raws| - 1]))]
  }

  /** The queue once `raw` was handed to worker `w`: announced, counted,
      its running promise is the worker's handle, and it is in flight. */
  function Launched(c: QueueState, raw: Job, w: Worker, appActive: bool): (r: QueueState)
    ensures r.activeJobCount - |r.inFlight| == c.activeJobCount - |c.inFlight|
    ensures raw.id in r.runningJobPromises && r.runningJobPromises[raw.id] == w.hook
    ensures |r.inFlight| == |c.inFlight| + 1 && r.inFlight[|c.inFlight|] == Execution(raw, w, raw.timeout > 0 && appActive)
  {
    c.(events := c.events + [JobStarted(Started(raw))],
       activeJobCount := c.activeJobCount + 1,
       runningJobPromises := c.runningJobPromises[raw.id := w.hook],
       inFlight := c.inFlight + [Execution(raw, w, raw.timeout > 0 && appActive)])
  }

  /** The queue after the first `released` deferred executers of `s0` were
      started without a worker: they left the deferred queue, were
      announced, stay counted for ever and lost their running promises. */
  function CrashedState(s0: QueueState, released: nat): QueueState
    requires released <= |s0.queuedJobExecuter|
  {
    var raws := s0.queuedJobExecuter[..released];
    s0.(queuedJobExecuter := s0.queuedJobExecuter[released..],
        events := s0.events + StartedEvents(raws),
        activeJobCount := s0.activeJobCount + released,
        runningJobPromises := s0.runningJobPromises - IdsOf(raws),
        crashed := s0.crashed + released)
  }

  lemma PrefixStep(queued: seq<Job>, released: nat)
    requires released < |queued|
    ensures queued[..released + 1][..released] == queued[..released]
    ensures queued[..released + 1] == queued[..released] + [queued[released]]
    ensures queued[released..][1..] == queued[released + 1..]
  {
  }

  lemma IdsOfStep(queued: seq<Job>, released: nat, running: map<string, CancelHook>)
    requires released < |queued|
    ensures running - IdsOf(queued[..released + 1]) == running - IdsOf(queued[..released]) - {queued[released].id}
  {
    PrefixStep(queued, released);
    assert IdsOf(queued[..released + 1]) == IdsOf(queued[..released]) + {queued[released].id};
  }

  /** One more crashed executer: the store gets its processing write, and
      the queue moves on by exactly what one crashed start does. */
  lemma CrashedStep(jobs: seq<Job>, s0: QueueState, released: nat)
    requires released < |s0.queuedJobExecuter|
    ensures var queued := s0.queuedJobExecuter;
      StartedWrites(jobs, queued[..released + 1]) == ReplaceById(StartedWrites(jobs, queued[..released]), Started(queued[released]))
    ensures var raw, c := s0.queuedJobExecuter[released], CrashedState(s0, released);
      CrashedState(s0, released + 1) ==
        c.(queuedJobExecuter := c.queuedJobExecuter[1..],
           events := c.events + [JobStarted(Started(raw))],
           activeJobCount := c.activeJobCount + 1,
           runningJobPromises := c.runningJobPromises - {raw.id},
           crashed := c.crashed + 1)
  {
    var queued := s0.queuedJobExecuter;
    PrefixStep(queued, released);
    IdsOfStep(queued, released, s0.runningJobPromises);
    assert s0.events + StartedEvents(queued[..released + 1]) == s0.events + StartedEvents(queued[..released]) + [JobStarted(Started(queued[released]))];
  }

  /** One more executer, this one reaching its worker after `released`
      crashed ones: handing it over is the crashed step with its running
      promise kept, not counted as crashed, and in flight. */
  lemma LaunchedStep(s0: QueueState, released: nat, w: Worker, appActive: bool)
    requires released < |s0.queuedJobExecuter|
    ensures var raw, c := s0.queuedJobExecuter[released], CrashedState(s0, released);
      Launched(c.(queuedJobExecuter := c.queuedJobExecuter[1..]), raw, w, appActive) ==
        CrashedState(s0, released + 1).(
          runningJobPromises := c.runningJobPromises[raw.id := w.hook],
          crashed := c.crashed,
          inFlight := s0.inFlight + [Execution(raw, w, raw.timeout > 0 && appActive)])
  {
    CrashedStep([], s0, released);
  }

  class Queue {
    const store: JobStoreMock
    var workers: map<string, Worker>
    /** The keys of `workers` in the order Object.keys lists them. */
    var workerOrder: seq<string>
    var isActive: bool
    var executedJobs: seq<Job>
    var activeJobCount: int
    var concurrency: int
    var updateInterval: int
    /** Deferred executers, first in first out, each named by the job it runs. */
    var queuedJobExecuter: seq<Job>
    /** What each running job's promise carries under CANCEL. */
    var runningJobPromises: map<string, CancelHook>
    var inFlight: seq<Execution>
    var cancelRequests: seq<CancelRequest>
    var events: seq<Event>
    /** Executions that threw before reaching a worker: they counted
        themselves in activeJobCount and never uncount. */
    ghost var crashed: nat

    ghost predicate Valid()
      reads this, store
    {
      && (forall n :: n in workers ==> workers[n].name == n)
      && Distinct(workerOrder)
      && (forall n :: n in workerOrder <==> n in workers)
      && activeJobCount == |inFlight| + crashed
      && UniqueIds(store.jobs)
    }

    ghost function State(): QueueState
      reads this
    {
      QueueState(workers, workerOrder, isActive, executedJobs, activeJobCount, concurrency,
                 updateInterval, queuedJobExecuter, runningJobPromises, inFlight, cancelRequests,
                 events, crashed)
    }

    constructor (store: JobStoreMock)
      requires UniqueIds(store.jobs)
      ensures Valid() && this.store == store
      ensures workers == map[] && workerOrder == [] && !isActive && executedJobs == []
      ensures activeJobCount == 0 && concurrency == UNLIMITED && updateInterval == DEFAULT_UPDATE_INTERVAL
      ensures queuedJobExecuter == [] && runningJobPromises == map[] && inFlight == []
      ensures cancelRequests == [] && events == []
    {
      this.store := store;
      workers := map[];
      workerOrder := [];
      isActive := false;
      executedJobs := [];
      activeJobCount := 0;
      concurrency := UNLIMITED;
      updateInterval := DEFAULT_UPDATE_INTERVAL;
      queuedJobExecuter := [];
      runningJobPromises := map[];
      inFlight := [];
      cancelRequests := [];
      events := [];
      crashed := 0;
    }

    /** Every option left out takes its default again. */
    method Configure(updateInterval: Option<int>, concurrency: Option<int>)
      requires Valid()
      modifies this
      ensures Valid()
      ensures this.updateInterval == updateInterval.GetOr(DEFAULT_UPDATE_INTERVAL)
      ensures this.concurrency == concurrency.GetOr(UNLIMITED)
      ensures State() == old(State()).(updateInterval := this.updateInterval, concurrency := this.concurrency)
    {
      this.updateInterval := updateInterval.GetOr(DEFAULT_UPDATE_INTERVAL);
      this.concurrency := concurrency.GetOr(UNLIMITED);
    }

    /** A second worker under a name already taken is refused. */
    method AddWorker(worker: Worker) returns (thrown: Option<Err>)
      requires Valid()
      modifies this
      ensures Valid()
      ensures worker.name in old(workers) ==>
        && thrown == Some(Err("Worker \"" + worker.name + "\" already exists.", ERROR_CODE))
        && State() == old(State())
      ensures worker.name !in old(workers) ==>
        && thrown.None?
        && State() == old(State()).(
             workers := old(workers)[worker.name := worker],
             workerOrder := old(workerOrder) + [worker.name],
             events := old(events) + [WorkerAdded(worker.name)])
    {
      if worker.name in workers {
        return Some(Err("Worker \"" + worker.name + "\" already exists.", ERROR_CODE));
      }
      workers := workers[worker.name := worker];
      workerOrder := workerOrder + [worker.name];
      events := events + [WorkerAdded(worker.name)];
      thrown := None;
    }

    /** Unregisters a worker, and with `deleteRelatedJobs` drops its jobs. */
    method RemoveWorker(name: string, deleteRelatedJobs: bool)
      requires Valid()
      modifies this, store
      ensures Valid()
      ensures workers == old(workers) - {name}
      ensures workerOrder == Filter(old(workerOrder), OtherName(name))
      ensures store.jobs == if deleteRelatedJobs then WithoutWorker(old(store.jobs), name) else old(store.jobs)
      ensures State() == old(State()).(workers := workers, workerOrder := workerOrder)
    {
      Unregister(name);
      if deleteRelatedJobs {
        store.RemoveJobsByWorkerName(name);
      }
    }

    /** `delete this.worker[name]`. */
    method Unregister(name: string)
      requires Valid()
      modifies this
      ensures Valid()
      ensures workers == old(workers) - {name}
      ensures workerOrder == Filter(old(workerOrder), OtherName(name))
      ensures State() == old(State()).(workers := workers, workerOrder := workerOrder)
    {
      DropName(workerOrder, workers.Keys, name);
      var kept := Filter(workerOrder, OtherName(name));
      var registry := workers - {name};
      assert forall n :: n in registry ==> registry[n].name == n;
      workers, workerOrder := registry, kept;
    }

    /** A job for an unregistered worker is refused; otherwise it is stored
        last, announced, and the queue is started unless told not to or
        already running. */
    method AddJob(workerName: string, payload: string, options: JobOptions, startQueue: bool, id: string, now: string)
      returns (r: Outcome<string>)
      requires Valid()
      requires forall i :: 0 <= i < |store.jobs| ==> store.jobs[i].id != id
      modifies this, store
      ensures Valid()
      ensures workerName !in old(workers) ==>
        && r == Thrown(Err("Missing worker with name " + workerName, ERROR_CODE))
        && store.jobs == old(store.jobs) && State() == old(State())
      ensures workerName in old(workers) ==>
        && r == Ok(id)
        && State() == old(State()).(
             events := old(events) + [JobAdded(NewJob(id, workerName, payload, options, now))],
             isActive := old(isActive) || startQueue,
             executedJobs := if startQueue && !old(isActive) then [] else old(executedJobs))
        && |store.jobs| == |old(store.jobs)| + 1
        && store.jobs[|old(store.jobs)|] == NewJob(id, workerName, payload, options, now)
        && (forall i :: 0 <= i < |old(store.jobs)| ==>
              store.jobs[i] == if startQueue && !old(isActive) then old(store.jobs)[i].(active := FALSE) else old(store.jobs)[i])
    {
      var job := NewJob(id, workerName, payload, options, now);
      if workerName !in workers {
        return Thrown(Err("Missing worker with name " + workerName, ERROR_CODE));
      }
      store.AddJob(job);
      events := events + [JobAdded(job)];
      if startQueue && !isActive {
        Start();
      }
      r := Ok(id);
    }

    /** Starting an idle queue forgets the last run's executed jobs and
        releases every claim left in the store; the passes of runQueue
        that follow are separate steps. */
    method Start()
      requires Valid()
      modifies this, store
      ensures Valid() && isActive
      ensures old(isActive) ==> store.jobs == old(store.jobs) && State() == old(State())
      ensures !old(isActive) ==>
        && State() == old(State()).(isActive := true, executedJobs := [])
        && |store.jobs| == |old(store.jobs)|
        && forall i :: 0 <= i < |store.jobs| ==> store.jobs[i] == old(store.jobs)[i].(active := FALSE)
    {
      if !isActive {
        isActive := true;
        executedJobs := [];
        ResetActiveJobs();
      }
    }

    /** Clears `active` on every job the store reports as active-marked,
        one update at a time; with unique ids that is every stored job. */
    method ResetActiveJobs()
      requires UniqueIds(store.jobs)
      modifies store
      ensures UniqueIds(store.jobs)
      ensures |store.jobs| == |old(store.jobs)|
      ensures forall i :: 0 <= i < |store.jobs| ==> store.jobs[i] == old(store.jobs)[i].(active := FALSE)
    {
      var marked := store.GetActiveMarkedJobs();
      var k := 0;
      while k < |marked|
        invariant 0 <= k <= |marked|
        invariant ResetWhere(store.jobs, old(store.jobs), marked[..k])
      {
        ClearClaim(marked[k], old(store.jobs), marked[..k]);
        assert marked[..k + 1] == marked[..k] + [marked[k]];
        k := k + 1;
      }
      assert marked[..k] == marked;
      ResetCoversMarked(store.jobs, old(store.jobs), marked);
    }

    /** One `updateJob({...job, active: FALSE})` of the reset loop. */
    method ClearClaim(job: Job, ghost orig: seq<Job>, ghost done: seq<Job>)
      requires UniqueIds(orig) && ResetWhere(store.jobs, orig, done) && job in orig
      modifies store
      ensures ResetWhere(store.jobs, orig, done + [job])
    {
      ResetStep(store.jobs, orig, done, job);
      store.UpdateJob(job.(active := FALSE));
      assert store.jobs == ReplaceById(old(store.jobs), job.(active := FALSE));
    }

    method Stop()
      requires Valid()
      modifies this
      ensures Valid()
      ensures State() == old(State()).(isActive := false)
    {
      isActive := false;
    }

    /** cancelJob: what happens depends only on the running promise's
        CANCEL; an invoked CANCEL is recorded with its argument. */
    method CancelJob(id: string, exception: Option<Err>) returns (r: CancelOutcome)
      modifies this
      ensures r == QueueLogic.CancelJob(id, HandleOf(old(runningJobPromises), id), exception)
      ensures State() == old(State()).(
        cancelRequests := old(cancelRequests) + if r.Invoked? then [CancelRequest(id, Some(r.error))] else [])
    {
      r := QueueLogic.CancelJob(id, HandleOf(runningJobPromises, id), exception);
      if r.Invoked? {
        cancelRequests := cancelRequests + [CancelRequest(id, Some(r.error))];
      }
    }

    /** Marks one job cancelled and not claimed; a running one has its
        CANCEL invoked first, and a CANCEL that is not a function throws
        before anything is written. */
    method CancelActiveJob(job: Job) returns (thrown: Option<Err>)
      requires Valid()
      modifies this, store
      ensures Valid()
      ensures thrown.Some? <==> HandleOf(old(runningJobPromises), job.id) == Some(HookNotFunction)
      ensures thrown.Some? ==>
        && thrown.value == Err("Job with id " + job.id + " not currently running", ERROR_CODE)
        && store.jobs == old(store.jobs) && State() == old(State())
      ensures thrown.None? ==>
        && |store.jobs| == |old(store.jobs)|
        && (forall i :: 0 <= i < |store.jobs| ==>
              store.jobs[i] == if old(store.jobs)[i].id == job.id then MarkedCancelled(job) else old(store.jobs)[i])
        && State() == old(State()).(
             events := old(events) + [JobCancelled(MarkedCancelled(job))],
             cancelRequests := old(cancelRequests) + CancelRequestOf(old(runningJobPromises), job))
    {
      if job.id in runningJobPromises {
        var outcome := CancelJob(job.id, Some(CancelledError(job.id)));
        if outcome.Threw? {
          return Some(outcome.error);
        }
      }
      WriteCancelled(job);
      events := events + [JobCancelled(MarkedCancelled(job))];
      thrown := None;
    }

    /** The cancelled record replaces the stored one. */
    method WriteCancelled(job: Job)
      requires UniqueIds(store.jobs)
      modifies store
      ensures UniqueIds(store.jobs)
      ensures |store.jobs| == |old(store.jobs)|
      ensures forall i :: 0 <= i < |store.jobs| ==>
        store.jobs[i] == if old(store.jobs)[i].id == job.id then MarkedCancelled(job) else old(store.jobs)[i]
    {
      store.UpdateJob(MarkedCancelled(job));
      assert forall i :: 0 <= i < |store.jobs| ==> store.jobs[i].id == old(store.jobs)[i].id;
    }

    /** Marks every stored job cancelled, in store order, whatever its
        state, invoking each running job's CANCEL first; the first running
        job whose CANCEL is not a function throws and stops the rest, the
        jobs before it staying cancelled. */
    method CancelAllActiveJobs() returns (thrown: Option<Err>)
      requires Valid()
      modifies this, store
      ensures Valid()
      ensures var k := CancelReach(old(runningJobPromises), old(store.jobs));
        && (thrown.None? <==> k == |old(store.jobs)|)
        && CancelledUpTo(store.jobs, old(store.jobs), k)
        && State() == old(State()).(
             events := old(events) + CancelledEvents(old(store.jobs)[..k]),
             cancelRequests := old(cancelRequests) + CancelRequestsFor(old(runningJobPromises), old(store.jobs)[..k]))
    {
      var jobs := store.jobs;
      ghost var running := runningJobPromises;
      var k := 0;
      assert jobs[..0] == [];
      while k < |jobs|
        invariant 0 <= k <= |jobs|
        invariant CancelProgress(old(State()), jobs, running, k)
        invariant forall i :: 0 <= i < k ==> HandleOf(running, jobs[i].id) != Some(HookNotFunction)
      {
        thrown := CancelNext(old(State()), jobs, running, k);
        if thrown.Some? {
          assert k == CancelReach(running, jobs);
          return;
        }
        k := k + 1;
      }
      assert jobs[..k] == jobs;
      thrown := None;
    }

    /** `jobs`, the store as cancelAllActiveJobs found it, has its first
        `k` jobs cancelled, announced and their CANCEL calls made, starting
        from the queue state `s0`. */
    ghost predicate CancelProgress(s0: QueueState, jobs: seq<Job>, running: map<string, CancelHook>, k: nat)
      reads this, store
    {
      && k <= |jobs| && Valid() && UniqueIds(jobs)
      && CancelledUpTo(store.jobs, jobs, k)
      && running == runningJobPromises
      && State() == s0.(
           events := s0.events + CancelledEvents(jobs[..k]),
           cancelRequests := s0.cancelRequests + CancelRequestsFor(running, jobs[..k]))
    }

    /** One turn of cancelAllActiveJobs' loop: cancelActiveJob on the next job. */
    method CancelNext(ghost s0: QueueState, jobs: seq<Job>, ghost running: map<string, CancelHook>, k: nat)
      returns (thrown: Option<Err>)
      requires k < |jobs| && CancelProgress(s0, jobs, running, k)
      modifies this, store
      ensures thrown.Some? <==> HandleOf(running, jobs[k].id) == Some(HookNotFunction)
      ensures thrown.Some? ==> CancelProgress(s0, jobs, running, k)
      ensures thrown.None? ==> CancelProgress(s0, jobs, running, k + 1)
    {
      ghost var before := store.jobs;
      thrown := CancelActiveJob(jobs[k]);
      if thrown.None? {
        CancelStep(before, store.jobs, jobs, k);
        assert jobs[..k + 1][..k] == jobs[..k];
      }
    }

    /** Puts a job back as unfailed, idle and claimed, and starts an idle
        queue, whose reset then releases the claim. */
    method RequeueJob(job: Job)
      requires Valid()
      modifies this, store
      ensures Valid() && isActive
      ensures |store.jobs| == |old(store.jobs)|
      ensures forall i :: 0 <= i < |store.jobs| ==>
        var written := if old(store.jobs)[i].id == job.id then Requeued(job) else old(store.jobs)[i];
        store.jobs[i] == if old(isActive) then written else written.(active := FALSE)
      ensures State() == old(State()).(isActive := true, executedJobs := if old(isActive) then old(executedJobs) else [])
    {
      store.UpdateJob(Requeued(job));
      assert forall i :: 0 <= i < |store.jobs| ==> store.jobs[i].id == old(store.jobs)[i].id;
      if !isActive {
        Start();
      }
    }

    method RemoveJob(job: Job)
      requires Valid()
      modifies this, store
      ensures Valid()
      ensures store.jobs == WithoutId(old(store.jobs), job.id)
      ensures State() == old(State()).(events := old(events) + [JobDeleted(job)])
    {
      store.RemoveJob(job);
      events := events + [JobDeleted(job)];
    }

    method RemoveJobPermanent(job: Job)
      requires Valid()
      modifies this, store
      ensures Valid()
      ensures store.jobs == WithoutId(old(store.jobs), job.id)
      ensures State() == old(State()).(events := old(events) + [JobDeleted(job)])
    {
      store.RemoveJobPermanently(job);
      events := events + [JobDeleted(job)];
    }

    /** isExecuterAvailable. */
    predicate ExecuterAvailable()
      reads this
    {
      IsExecuterAvailable(concurrency, activeJobCount)
    }

    /** The store's batch for one registered worker, read with its busy
        flag and executers left: nothing when it is busy. */
    function BatchOf(name: string): seq<Job>
      requires name in workers
      reads this, store, workers[name]
    {
      var w := workers[name];
      if w.IsBusy() then [] else store.GetJobsForWorker(name, w.AvailableExecuters())
    }

    /** The batch each worker of `order` would offer, in that order. */
    function Offers(order: seq<string>): (r: seq<seq<Job>>)
      requires forall k :: 0 <= k < |order| ==> order[k] in workers
      reads this, store, workers.Values
      ensures |r| == |order|
      ensures forall k :: 0 <= k < |order| ==> r[k] == BatchOf(order[k])
    {
      seq(|order|, k requires 0 <= k < |order| && order[k] in workers reads this, store, workers.Values => BatchOf(order[k]))
    }

    /** getJobsForWorker: the named worker's own batch while it is not busy,
        otherwise the first non-empty batch another worker offers, in
        registration order; reading an unregistered worker throws. */
    function SelectedBatch(name: string): Outcome<seq<Job>>
      requires Valid()
      reads this, store, workers.Values
    {
      if name !in workers then Thrown(TYPE_ERROR)
      else if !workers[name].IsBusy() then Ok(BatchOf(name))
      else Ok(FirstNonEmpty(Offers(workerOrder)))
    }

    /** The loop of getJobsForAlternateWorker over the registered workers. */
    method GetJobsForAlternateWorker() returns (batch: seq<Job>)
      requires Valid()
      ensures batch == FirstNonEmpty(Offers(workerOrder))
    {
      ghost var offers := Offers(workerOrder);
      var i := 0;
      while i < |workerOrder|
        invariant 0 <= i <= |workerOrder|
        invariant forall m :: 0 <= m < i ==> offers[m] == []
      {
        var next := BatchOf(workerOrder[i]);
        if |next| > 0 {
          FirstNonEmptyAt(offers, i);
          return next;
        }
        i := i + 1;
      }
      return [];
    }

    /** A worker's own batch holds only its jobs, never more than it has
        executers left, all drawn from the store. */
    lemma OwnBatchBounds(name: string)
      requires name in workers
      ensures var b := BatchOf(name);
        && (forall i :: 0 <= i < |b| ==> b[i].workerName == name && b[i] in store.jobs)
        && (workers[name].AvailableExecuters() >= 0 ==> |b| <= workers[name].AvailableExecuters())
    {
      store.WorkerBatchIsTop(name, workers[name].AvailableExecuters());
    }

    /** The batch taken for a busy worker is empty or is what the first
        worker in registration order that offers one offers; that worker
        is not busy. */
    lemma AlternateBatchIsOffered()
      requires forall k :: 0 <= k < |workerOrder| ==> workerOrder[k] in workers
      ensures var b := FirstNonEmpty(Offers(workerOrder));
        b != [] ==> exists k :: 0 <= k < |workerOrder| && !workers[workerOrder[k]].IsBusy() && b == BatchOf(workerOrder[k])
    {
      var offers := Offers(workerOrder);
      var b := FirstNonEmpty(offers);
      if b != [] {
        var k :| 0 <= k < |offers| && b == offers[k] && forall m :: 0 <= m < k ==> offers[m] == [];
        assert b == BatchOf(workerOrder[k]);
      }
    }

    /** getJobsForWorker; OwnBatchBounds and AlternateBatchIsOffered say what a batch holds. */
    method GetJobsForWorker(name: string) returns (r: Outcome<seq<Job>>)
      requires Valid()
      ensures r == SelectedBatch(name)
      ensures r.Thrown? <==> name !in workers
    {
      if name !in workers {
        return Thrown(TYPE_ERROR);
      }
      var w := workers[name];
      if !w.IsBusy() {
        r := Ok(store.GetJobsForWorker(name, w.AvailableExecuters()));
      } else {
        var batch := GetJobsForAlternateWorker();
        r := Ok(batch);
      }
    }

    /** getJobsForWorkerWithDeleted: the same choice through the store's
        with-deleted query, which the in-memory store answers like the
        plain one. */
    method GetJobsForWorkerWithDeleted(name: string) returns (r: Outcome<seq<Job>>)
      requires Valid()
      ensures r == SelectedBatch(name)
      ensures r.Thrown? <==> name !in workers
    {
      if name !in workers {
        return Thrown(TYPE_ERROR);
      }
      var w := workers[name];
      if !w.IsBusy() {
        r := Ok(store.GetJobsForWorkerWithDeleted(name, w.AvailableExecuters()));
      } else {
        var batch := GetJobsForAlternateWorker();
        r := Ok(batch);
      }
    }

    /** The job runQueue picks: the job in progress, else the next one. */
    function NextPick(): Option<Job>
      reads store
    {
      PickNextJob(store.GetWorkInProgressJob(), store.GetNextJob())
    }

    /** finishQueue: hands the executed jobs to onQueueFinish and goes idle. */
    method FinishQueue()
      modifies this
      ensures State() == old(State()).(isActive := false, events := old(events) + [QueueFinished(old(executedJobs))])
    {
      events := events + [QueueFinished(executedJobs)];
      isActive := false;
    }

    /** The start of excuteJob, up to its await: the job is written back as
        processing, announced and counted; without a worker registered
        under its name the execution throws, and its cleanup throws again
        before uncounting it. */
    method BeginExecution(raw: Job, appActive: bool) returns (started: bool)
      requires Valid()
      modifies this, store, if raw.workerName in workers then {workers[raw.workerName]} else {}
      ensures Valid()
      ensures started <==> raw.workerName in old(workers)
      ensures activeJobCount == old(activeJobCount) + 1
      ensures events == old(events) + [JobStarted(Started(raw))]
      ensures |store.jobs| == |old(store.jobs)|
      ensures forall i :: 0 <= i < |store.jobs| ==>
        store.jobs[i] == if old(store.jobs)[i].id == raw.id then Started(raw) else old(store.jobs)[i]
      ensures store.jobs == ReplaceById(old(store.jobs), Started(raw))
      ensures started ==>
        && inFlight == old(inFlight) + [Execution(raw, old(workers)[raw.workerName], raw.timeout > 0 && appActive)]
        && crashed == old(crashed)
        && runningJobPromises == old(runningJobPromises)[raw.id := old(workers)[raw.workerName].hook]
        && old(workers)[raw.workerName].executionCount == old(workers[raw.workerName].executionCount) + 1
        && old(workers)[raw.workerName].calls == old(workers[raw.workerName].calls) + [OnStart(raw)]
        && State() == Launched(old(State()), raw, old(workers)[raw.workerName], appActive)
      ensures !started ==>
        && inFlight == old(inFlight) && crashed == old(crashed) + 1
        && runningJobPromises == old(runningJobPromises) - {raw.id}
        && State() == old(State()).(events := old(events) + [JobStarted(Started(raw))],
                                    activeJobCount := old(activeJobCount) + 1,
                                    runningJobPromises := old(runningJobPromises) - {raw.id},
                                    crashed := old(crashed) + 1)
      ensures forall n :: n in old(workers) && n != raw.workerName ==>
        old(workers)[n].executionCount == old(workers[n].executionCount) && old(workers)[n].calls == old(workers[n].calls)
      ensures workers == old(workers) && workerOrder == old(workerOrder) && isActive == old(isActive)
      ensures executedJobs == old(executedJobs) && queuedJobExecuter == old(queuedJobExecuter)
      ensures concurrency == old(concurrency) && cancelRequests == old(cancelRequests) && updateInterval == old(updateInterval)
    {
      WriteStarted(raw);
      started := Launch(raw, appActive);
    }

    /** The processing record replaces the stored one. */
    method WriteStarted(raw: Job)
      requires UniqueIds(store.jobs)
      modifies store
      ensures UniqueIds(store.jobs)
      ensures |store.jobs| == |old(store.jobs)|
      ensures forall i :: 0 <= i < |store.jobs| ==>
        store.jobs[i] == if old(store.jobs)[i].id == raw.id then Started(raw) else old(store.jobs)[i]
      ensures store.jobs == ReplaceById(old(store.jobs), Started(raw))
    {
      store.UpdateJob(Started(raw));
      assert forall i :: 0 <= i < |store.jobs| ==> store.jobs[i].id == old(store.jobs)[i].id;
    }

    /** The start of excuteJob after the write: the job is announced and
        counted, then handed to its worker, or the execution throws. */
    method Launch(raw: Job, appActive: bool) returns (started: bool)
      requires Valid()
      modifies this, if raw.workerName in workers then {workers[raw.workerName]} else {}
      ensures Valid()
      ensures started <==> raw.workerName in old(workers)
      ensures activeJobCount == old(activeJobCount) + 1
      ensures events == old(events) + [JobStarted(Started(raw))]
      ensures started ==>
        && inFlight == old(inFlight) + [Execution(raw, old(workers)[raw.workerName], raw.timeout > 0 && appActive)]
        && crashed == old(crashed)
        && runningJobPromises == old(runningJobPromises)[raw.id := old(workers)[raw.workerName].hook]
        && old(workers)[raw.workerName].executionCount == old(workers[raw.workerName].executionCount) + 1
        && old(workers)[raw.workerName].calls == old(workers[raw.workerName].calls) + [OnStart(raw)]
        && State() == Launched(old(State()), raw, old(workers)[raw.workerName], appActive)
      ensures !started ==>
        && inFlight == old(inFlight) && crashed == old(crashed) + 1
        && runningJobPromises == old(runningJobPromises) - {raw.id}
        && State() == old(State()).(events := old(events) + [JobStarted(Started(raw))],
                                    activeJobCount := old(activeJobCount) + 1,
                                    runningJobPromises := old(runningJobPromises) - {raw.id},
                                    crashed := old(crashed) + 1)
      ensures forall n :: n in old(workers) && n != raw.workerName ==>
        old(workers)[n].executionCount == old(workers[n].executionCount) && old(workers)[n].calls == old(workers[n].calls)
      ensures workers == old(workers) && workerOrder == old(workerOrder) && isActive == old(isActive)
      ensures executedJobs == old(executedJobs) && queuedJobExecuter == old(queuedJobExecuter)
      ensures concurrency == old(concurrency) && cancelRequests == old(cancelRequests) && updateInterval == old(updateInterval)
    {
      events := events + [JobStarted(Started(raw))];
      activeJobCount := activeJobCount + 1;
      if raw.workerName !in workers {
        runningJobPromises := runningJobPromises - {raw.id};
        crashed := crashed + 1;
        return false;
      }
      HandOver(raw, appActive);
      started := true;
    }

    /** The job reaches its worker: the worker counts it and calls onStart,
        its handle becomes the job's running promise, and it is in flight. */
    method HandOver(raw: Job, appActive: bool)
      requires raw.workerName in workers
      modifies this, workers[raw.workerName]
      ensures var w := old(workers)[raw.workerName];
        && w.executionCount == old(w.executionCount) + 1 && w.calls == old(w.calls) + [OnStart(raw)]
        && State() == old(State()).(runningJobPromises := old(runningJobPromises)[raw.id := w.hook],
                                    inFlight := old(inFlight) + [Execution(raw, w, raw.timeout > 0 && appActive)])
    {
      var worker := workers[raw.workerName];
      var timed := worker.Execute(raw, appActive);
      runningJobPromises := runningJobPromises[raw.id := worker.hook];
      inFlight := inFlight + [Execution(raw, worker, timed)];
    }

    /** The rest of excuteJob once the execution at `i` settles. `handler`
        is how the handler's promise settles, `timerFirst` whether the
        timeout fires first, `now` the clock. */
    method SettleExecution(i: nat, handler: Settlement, timerFirst: bool, now: string)
      requires Valid() && i < |inFlight| && now != ""
      modifies this, store, inFlight[i].worker
      ensures Valid()
      ensures inFlight == old(inFlight[..i] + inFlight[i + 1..])
      ensures activeJobCount == old(activeJobCount) - 1
      ensures executedJobs == old(executedJobs) + [old(inFlight[i].raw)]
      ensures runningJobPromises == old(runningJobPromises) - {old(inFlight[i].raw.id)}
      ensures var e := old(inFlight[i]);
        var result := ExecutionResult(e.raw.id, e.timed, timerFirst, handler);
        && store.jobs == JobsAfter(old(store.jobs), e.raw, result, now)
        && events == old(events) + EventsAfter(e.raw, result, now)
        && e.worker.calls == old(e.worker.calls) + CallbacksAfter(e.raw, result, now)
        && e.worker.executionCount == old(e.worker.executionCount) - 1
        && cancelRequests == old(cancelRequests) +
             if RaceCancels(e.timed, timerFirst, handler, e.worker.hook) then [CancelRequest(e.raw.id, None)] else []
      ensures workers == old(workers) && workerOrder == old(workerOrder) && isActive == old(isActive)
      ensures queuedJobExecuter == old(queuedJobExecuter) && concurrency == old(concurrency)
      ensures crashed == old(crashed) && updateInterval == old(updateInterval)
    {
      var e := inFlight[i];
      NoteRaceCancel(e, timerFirst, handler);
      var result := ExecutionResult(e.raw.id, e.timed, timerFirst, handler);
      var emitted;
      if result.Resolved? {
        emitted := RecordSuccess(e);
      } else {
        emitted := RecordFailure(e, result.error, now);
      }
      Retire(i, emitted);
    }

    /** The timeout race calls CANCEL with no argument when it is lost by
        a handler whose promise has one. */
    method NoteRaceCancel(e: Execution, timerFirst: bool, handler: Settlement)
      modifies this
      ensures cancelRequests == old(cancelRequests) +
        if RaceCancels(e.timed, timerFirst, handler, e.worker.hook) then [CancelRequest(e.raw.id, None)] else []
      ensures workers == old(workers) && workerOrder == old(workerOrder) && isActive == old(isActive)
      ensures queuedJobExecuter == old(queuedJobExecuter) && concurrency == old(concurrency)
      ensures crashed == old(crashed) && inFlight == old(inFlight) && activeJobCount == old(activeJobCount) && updateInterval == old(updateInterval)
      ensures executedJobs == old(executedJobs) && runningJobPromises == old(runningJobPromises) && events == old(events)
    {
      if RaceCancels(e.timed, timerFirst, handler, e.worker.hook) {
        cancelRequests := cancelRequests + [CancelRequest(e.raw.id, None)];
      }
    }

    /** The bookkeeping of excuteJob's `finally` and of runExecuter: the
        execution at `i` is no longer running or counted and joins the
        executed jobs. */
    method Retire(i: nat, emitted: seq<Event>)
      requires Valid() && i < |inFlight|
      modifies this
      ensures Valid()
      ensures inFlight == old(inFlight[..i] + inFlight[i + 1..])
      ensures activeJobCount == old(activeJobCount) - 1
      ensures executedJobs == old(executedJobs) + [old(inFlight[i].raw)]
      ensures runningJobPromises == old(runningJobPromises) - {old(inFlight[i].raw.id)}
      ensures events == old(events) + emitted
      ensures workers == old(workers) && workerOrder == old(workerOrder) && isActive == old(isActive)
      ensures queuedJobExecuter == old(queuedJobExecuter) && concurrency == old(concurrency)
      ensures crashed == old(crashed) && cancelRequests == old(cancelRequests) && updateInterval == old(updateInterval)
    {
      var raw := inFlight[i].raw;
      events := events + emitted;
      runningJobPromises := runningJobPromises - {raw.id};
      executedJobs := executedJobs + [raw];
      inFlight := inFlight[..i] + inFlight[i + 1..];
      activeJobCount := activeJobCount - 1;
    }

    /** The success branch and the cleanup of excuteJob, as far as the
        store and the captured worker see them. Returns what it emits. */
    method RecordSuccess(e: Execution) returns (emitted: seq<Event>)
      requires UniqueIds(store.jobs)
      modifies store, e.worker
      ensures UniqueIds(store.jobs)
      ensures store.jobs == JobsAfter(old(store.jobs), e.raw, Resolved, "")
      ensures emitted == EventsAfter(e.raw, Resolved, "")
      ensures e.worker.calls == old(e.worker.calls) + CallbacksAfter(e.raw, Resolved, "")
      ensures e.worker.executionCount == old(e.worker.executionCount) - 1
    {
      var job := Started(e.raw);
      e.worker.TriggerSuccess(job);
      job := job.(status := Finished);
      WriteFinished(job);
      e.worker.DecreaseExecutionCount();
      e.worker.TriggerCompletion(job);
      emitted := [JobSucceeded(job), JobCompleted(job)];
    }

    /** The finished record is written and then removed, so only the
        removal is visible. */
    method WriteFinished(job: Job)
      requires UniqueIds(store.jobs)
      modifies store
      ensures UniqueIds(store.jobs)
      ensures store.jobs == WithoutId(old(store.jobs), job.id)
    {
      store.UpdateJob(job);
      assert store.jobs == ReplaceById(old(store.jobs), job);
      store.RemoveJob(job);
      ReplaceThenRemove(old(store.jobs), job);
    }

    /** The failure branch and the cleanup of excuteJob: one more failed
        attempt is recorded and the record is released as failed or
        cancelled. */
    method RecordFailure(e: Execution, error: Err, now: string) returns (emitted: seq<Event>)
      requires UniqueIds(store.jobs) && now != ""
      modifies store, e.worker
      ensures UniqueIds(store.jobs)
      ensures store.jobs == JobsAfter(old(store.jobs), e.raw, Rejected(error), now)
      ensures emitted == EventsAfter(e.raw, Rejected(error), now)
      ensures e.worker.calls == old(e.worker.calls) + CallbacksAfter(e.raw, Rejected(error), now)
      ensures e.worker.executionCount == old(e.worker.executionCount) - 1
    {
      var job := Started(e.raw);
      var failed := FailedJob(e.raw, error, now);
      e.worker.TriggerFailure(job.(metaData := failed.metaData, failed := failed.failed), error);
      WriteFailed(failed);
      e.worker.DecreaseExecutionCount();
      e.worker.TriggerCompletion(job);
      emitted := [JobFailed(failed, error), JobCompleted(job)];
    }

    /** The failed record replaces the stored one. */
    method WriteFailed(failed: Job)
      requires UniqueIds(store.jobs)
      modifies store
      ensures UniqueIds(store.jobs)
      ensures store.jobs == ReplaceById(old(store.jobs), failed)
    {
      store.UpdateJob(failed);
      assert forall k :: 0 <= k < |store.jobs| ==> store.jobs[k].id == old(store.jobs)[k].id;
      assert store.jobs == ReplaceById(old(store.jobs), failed);
    }

    /** The tail of runExecuter: while executers wait and admission allows,
        the oldest one is started. An executer that throws for want of a
        worker runs its own `finally` at once and releases the next
        (ReleaseCrashing); the first that reaches its worker awaits its
        handler and ends the chain. So at most one more execution is in
        flight, it is the last one released, and the ones started leave the
        queue in the order they entered it. Each start is admitted, so a
        positive limit is kept. */
    method ReleaseDeferred(appActive: bool) returns (released: nat)
      requires Valid()
      modifies this, store, workers.Values
      ensures Valid()
      ensures released <= |old(queuedJobExecuter)|
      ensures queuedJobExecuter == old(queuedJobExecuter)[released..]
      ensures events == old(events) + StartedEvents(old(queuedJobExecuter)[..released])
      ensures store.jobs == StartedWrites(old(store.jobs), old(queuedJobExecuter)[..released])
      ensures released > 0 ==> old(ExecuterAvailable())
      ensures old(queuedJobExecuter) != [] && old(ExecuterAvailable()) ==> released > 0
      ensures queuedJobExecuter == [] || !ExecuterAvailable() || |inFlight| == |old(inFlight)| + 1
      ensures |inFlight| == |old(inFlight)| ==> CrashProgress(old(State()), old(store.jobs), released)
      ensures |inFlight| != |old(inFlight)| ==> StartedAfterCrashes(old(State()), released, appActive)
      ensures forall n :: n in old(workers) && (|inFlight| == |old(inFlight)| || n != old(queuedJobExecuter)[released - 1].workerName) ==>
        old(workers)[n].executionCount == old(workers[n].executionCount) && old(workers)[n].calls == old(workers[n].calls)
      ensures |inFlight| != |old(inFlight)| ==> var raw := old(queuedJobExecuter)[released - 1];
        && old(workers)[raw.workerName].executionCount == old(workers[raw.workerName].executionCount) + 1
        && old(workers)[raw.workerName].calls == old(workers[raw.workerName].calls) + [OnStart(raw)]
      ensures activeJobCount == old(activeJobCount) + released
      ensures concurrency > 0 && old(activeJobCount) <= concurrency ==> activeJobCount <= concurrency
      ensures |inFlight| + |queuedJobExecuter| + crashed == old(|inFlight| + |queuedJobExecuter| + crashed)
      ensures workers == old(workers) && workerOrder == old(workerOrder) && isActive == old(isActive)
      ensures executedJobs == old(executedJobs) && concurrency == old(concurrency)
      ensures updateInterval == old(updateInterval) && cancelRequests == old(cancelRequests)
    {
      released := ReleaseCrashing(appActive);
      if queuedJobExecuter != [] && ExecuterAvailable() {
        StartHead(old(State()), old(store.jobs), released, appActive);
        released := released + 1;
      }
    }

    /** The end of releaseDeferred's chain: the oldest deferred executer,
        whose worker is registered, is started and awaits its handler. */
    method StartHead(ghost s0: QueueState, ghost jobs0: seq<Job>, released: nat, appActive: bool)
      requires CrashProgress(s0, jobs0, released)
      requires queuedJobExecuter != [] && queuedJobExecuter[0].workerName in workers
      modifies this, store, workers[queuedJobExecuter[0].workerName]
      ensures released < |s0.queuedJobExecuter|
      ensures Valid() && StartedAfterCrashes(s0, released + 1, appActive)
      ensures store.jobs == StartedWrites(jobs0, s0.queuedJobExecuter[..released + 1])
      ensures var raw := s0.queuedJobExecuter[released];
        var w := s0.workers[raw.workerName];
        w.executionCount == old(w.executionCount) + 1 && w.calls == old(w.calls) + [OnStart(raw)]
    {
      var raw := queuedJobExecuter[0];
      assert raw == s0.queuedJobExecuter[released] && workers == s0.workers;
      ghost var c := CrashedState(s0, released);
      queuedJobExecuter := queuedJobExecuter[1..];
      assert State() == c.(queuedJobExecuter := c.queuedJobExecuter[1..]);
      var started := BeginExecution(raw, appActive);
      CrashedStep(jobs0, s0, released);
      LaunchedStep(s0, released, workers[raw.workerName], appActive);
    }

    /** releaseDeferred once its `released`-th executer reached its worker,
        all before it having crashed (CrashedState): that one left the
        deferred queue, was announced and counted, keeps its running
        promise, and is in flight on its worker. */
    ghost predicate StartedAfterCrashes(s0: QueueState, released: nat, appActive: bool)
      reads this
    {
      && 0 < released <= |s0.queuedJobExecuter|
      && var raw := s0.queuedJobExecuter[released - 1];
      && raw.workerName in s0.workers
      && (forall k :: 0 <= k < released - 1 ==> s0.queuedJobExecuter[k].workerName !in s0.workers)
      && var before := CrashedState(s0, released - 1);
      && State() == CrashedState(s0, released).(
           runningJobPromises := before.runningJobPromises[raw.id := s0.workers[raw.workerName].hook],
           crashed := before.crashed,
           inFlight := s0.inFlight + [Execution(raw, s0.workers[raw.workerName], raw.timeout > 0 && appActive)])
    }

    /** The head of releaseDeferred's chain: deferred executers whose worker
        is missing, released one after another while admission allows. Each
        is written as processing, announced and counted, then throws; its
        cleanup throws again before uncounting it, and its `finally`
        releases the next. No worker is touched. */
    method ReleaseCrashing(appActive: bool) returns (released: nat)
      requires Valid()
      modifies this, store
      ensures CrashProgress(old(State()), old(store.jobs), released)
      ensures queuedJobExecuter == [] || !ExecuterAvailable() || queuedJobExecuter[0].workerName in workers
      ensures released > 0 ==> old(ExecuterAvailable())
      ensures concurrency > 0 && old(activeJobCount) <= concurrency ==> activeJobCount <= concurrency
    {
      released := 0;
      assert old(queuedJobExecuter)[..0] == [];
      while queuedJobExecuter != [] && ExecuterAvailable() && queuedJobExecuter[0].workerName !in workers
        invariant CrashProgress(old(State()), old(store.jobs), released)
        invariant released > 0 ==> old(ExecuterAvailable())
        invariant concurrency > 0 && old(activeJobCount) <= concurrency ==> activeJobCount <= concurrency
        decreases |queuedJobExecuter|
      {
        CrashNext(old(State()), old(store.jobs), released, appActive);
        released := released + 1;
      }
    }

    /** `released` deferred executers taken from `s0`, none of which found
        its worker: each was written as processing over `jobs0`, announced,
        counted for ever and lost its running promise. */
    ghost predicate CrashProgress(s0: QueueState, jobs0: seq<Job>, released: nat)
      reads this, store
    {
      && released <= |s0.queuedJobExecuter|
      && Valid()
      && (forall k :: 0 <= k < released ==> s0.queuedJobExecuter[k].workerName !in s0.workers)
      && store.jobs == StartedWrites(jobs0, s0.queuedJobExecuter[..released])
      && State() == CrashedState(s0, released)
    }

    /** One turn of the crash chain: the oldest deferred executer, whose
        worker is missing, is started and throws. */
    method CrashNext(ghost s0: QueueState, ghost jobs0: seq<Job>, released: nat, appActive: bool)
      requires CrashProgress(s0, jobs0, released)
      requires queuedJobExecuter != [] && queuedJobExecuter[0].workerName !in workers
      modifies this, store
      ensures CrashProgress(s0, jobs0, released + 1)
      ensures activeJobCount == old(activeJobCount) + 1 && concurrency == old(concurrency)
    {
      var raw := queuedJobExecuter[0];
      queuedJobExecuter := queuedJobExecuter[1..];
      var started := BeginExecution(raw, appActive);
      CrashedStep(jobs0, s0, released);
    }

    /** A settled execution and the release of deferred executers that
        follows it in runExecuter's `finally`. */
    method CompleteExecution(i: nat, handler: Settlement, timerFirst: bool, now: string, appActive: bool)
      returns (released: nat)
      requires Valid() && i < |inFlight| && now != ""
      modifies this, store, workers.Values, inFlight[i].worker
      ensures Valid()
      ensures executedJobs == old(executedJobs) + [old(inFlight[i].raw)]
      ensures activeJobCount == old(activeJobCount) - 1 + released
      ensures released <= |old(queuedJobExecuter)| && queuedJobExecuter == old(queuedJobExecuter)[released..]
      ensures |inFlight| <= |old(inFlight)|
      ensures workers == old(workers) && isActive == old(isActive)
    {
      SettleExecution(i, handler, timerFirst, now);
      released := ReleaseDeferred(appActive);
    }

    /** enqueueJobExecuter: starts the job at once when admission allows
        (releasing deferred executers if it throws), else defers it and
        changes nothing else. Every start is admitted, so a positive limit
        is kept. */
    method EnqueueJobExecuter(raw: Job, appActive: bool)
      requires Valid()
      modifies this, store, workers.Values
      ensures Valid()
      ensures !old(ExecuterAvailable()) ==>
        && State() == old(State()).(queuedJobExecuter := old(queuedJobExecuter) + [raw])
        && store.jobs == old(store.jobs)
        && forall n :: n in old(workers) ==>
             old(workers)[n].executionCount == old(workers[n].executionCount) && old(workers)[n].calls == old(workers[n].calls)
      ensures old(ExecuterAvailable()) ==>
        |events| > |old(events)| && events[|old(events)|] == JobStarted(Started(raw))
      ensures concurrency > 0 && old(activeJobCount) <= concurrency ==> activeJobCount <= concurrency
      ensures |inFlight| + |queuedJobExecuter| + crashed == old(|inFlight| + |queuedJobExecuter| + crashed) + 1
      ensures workers == old(workers) && workerOrder == old(workerOrder) && isActive == old(isActive)
      ensures executedJobs == old(executedJobs) && concurrency == old(concurrency)
    {
      if ExecuterAvailable() {
        var started := BeginExecution(raw, appActive);
        if !started {
          var _ := ReleaseDeferred(appActive);
        }
      } else {
        queuedJobExecuter := queuedJobExecuter + [raw];
      }
    }

    /** Hands every job of a batch to enqueueJobExecuter, in order: each is
        started, deferred or thrown out, none is lost, and a positive limit
        is never exceeded. */
    method DispatchBatch(batch: seq<Job>, appActive: bool)
      requires Valid()
      modifies this, store, workers.Values
      ensures Valid()
      ensures |inFlight| + |queuedJobExecuter| + crashed == old(|inFlight| + |queuedJobExecuter| + crashed) + |batch|
      ensures concurrency > 0 && old(activeJobCount) <= concurrency ==> activeJobCount <= concurrency
      ensures workers == old(workers) && workerOrder == old(workerOrder) && isActive == old(isActive)
    {
      var k := 0;
      while k < |batch|
        invariant 0 <= k <= |batch|
        invariant Valid()
        invariant concurrency == old(concurrency)
        invariant concurrency > 0 && old(activeJobCount) <= concurrency ==> activeJobCount <= concurrency
        invariant workers == old(workers) && workerOrder == old(workerOrder) && isActive == old(isActive)
        invariant |inFlight| + |queuedJobExecuter| + crashed == old(|inFlight| + |queuedJobExecuter| + crashed) + k
      {
        EnqueueJobExecuter(batch[k], appActive);
        k := k + 1;
      }
    }

    /** One pass of runQueue (with the corrected pick, see PickNextJob). A
        stopped queue finishes; otherwise the picked job's worker gets its
        batch handed to the executers; with nothing to pick the queue
        finishes once no execution is counted, and waits for the next pass
        while one is. */
    method RunQueue(appActive: bool) returns (pass: Pass)
      requires Valid()
      modifies this, store, workers.Values
      ensures Valid()
      ensures !old(isActive) ==> pass == Drained
      ensures pass == Drained ==>
        !isActive && events == old(events) + [QueueFinished(old(executedJobs))]
      ensures pass == Drained && old(isActive) ==> old(NextPick()).None? && old(activeJobCount) <= 0
      ensures pass == Rescheduled ==>
        && old(isActive) && old(NextPick()).None? && old(activeJobCount) > 0
        && events == old(events) && store.jobs == old(store.jobs) && inFlight == old(inFlight)
      ensures pass.Stalled? ==>
        && old(isActive) && old(NextPick()).Some? && old(NextPick()).value.workerName !in workers
        && pass.error == TYPE_ERROR && events == old(events) && store.jobs == old(store.jobs)
      ensures pass.Dispatched? ==>
        && old(isActive) && old(NextPick()).Some?
        && Ok(pass.batch) == old(SelectedBatch(NextPick().value.workerName))
        && |inFlight| + |queuedJobExecuter| + crashed == old(|inFlight| + |queuedJobExecuter| + crashed) + |pass.batch|
      ensures workers == old(workers) && workerOrder == old(workerOrder)
      ensures pass != Drained ==> isActive == old(isActive)
    {
      if !isActive {
        FinishQueue();
        return Drained;
      }
      var pick := PickNextJob(store.GetWorkInProgressJob(), store.GetNextJob());
      if pick.Some? {
        var selected := GetJobsForWorker(pick.value.workerName);
        assert selected == old(SelectedBatch(NextPick().value.workerName));
        if selected.Thrown? {
          return Stalled(selected.error);
        }
        DispatchBatch(selected.value, appActive);
        return Dispatched(selected.value);
      } else if !(activeJobCount > 0) {
        FinishQueue();
        return Drained;
      }
      return Rescheduled;
    }
  }
}
