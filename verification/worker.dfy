/** A named job handler with its own concurrency limit
    (the Worker class of lib/commonjs/Worker.js). */
module Workers {
  import opened Wrappers
  import opened Jobs

  /** What a handler's promise carries under the CANCEL key: nothing (or a
      falsy value), a function, or a truthy value that is not a function. */
  datatype CancelHook = NoHook | HookFunction | HookNotFunction

  /** How a promise settles. */
  datatype Settlement = Resolved | Rejected(error: Err)

  /** One call of a worker's lifecycle callbacks. */
  datatype Callback =
    | OnStart(job: Job)
    | OnSuccess(job: Job)
    | OnFailure(job: Job, error: Err)
    | OnCompletion(job: Job)

  const DEFAULT_CONCURRENCY: int := 5

  /** The handler itself runs outside the model: what its promises carry
      under CANCEL is fixed per worker (`hook`), and how each call settles is
      an input of the step that settles it. The callbacks are recorded in
      `calls`, in the order they are invoked. */
  class Worker {
    const name: string
    const concurrency: int
    const hook: CancelHook
    var executionCount: int
    var calls: seq<Callback>

    /** `new Worker(name, executer, { concurrency })`: the limit defaults to 5. */
    constructor (name: string, concurrency: Option<int>, hook: CancelHook)
      ensures this.name == name && this.hook == hook
      ensures this.concurrency == concurrency.GetOr(DEFAULT_CONCURRENCY)
      ensures executionCount == 0 && calls == []
    {
      this.name := name;
      this.concurrency := concurrency.GetOr(DEFAULT_CONCURRENCY);
      this.hook := hook;
      executionCount := 0;
      calls := [];
    }

    /** Busy only when the count has reached the limit exactly. */
    predicate IsBusy()
      reads this
    {
      executionCount == concurrency
    }

    function AvailableExecuters(): int
      reads this
    {
      concurrency - executionCount
    }

    /** Starts one execution: counts it, calls onStart, and reports whether
        the handler is raced against the job's timeout. */
    method Execute(job: Job, appActive: bool) returns (timed: bool)
      modifies this
      ensures executionCount == old(executionCount) + 1
      ensures calls == old(calls) + [OnStart(job)]
      ensures timed <==> job.timeout > 0 && appActive
    {
      executionCount := executionCount + 1;
      calls := calls + [OnStart(job)];
      timed := job.timeout > 0 && appActive;
    }

    method TriggerSuccess(job: Job)
      modifies this
      ensures calls == old(calls) + [OnSuccess(job)]
      ensures executionCount == old(executionCount)
    {
      calls := calls + [OnSuccess(job)];
    }

    method TriggerFailure(job: Job, error: Err)
      modifies this
      ensures calls == old(calls) + [OnFailure(job, error)]
      ensures executionCount == old(executionCount)
    {
      calls := calls + [OnFailure(job, error)];
    }

    method TriggerCompletion(job: Job)
      modifies this
      ensures calls == old(calls) + [OnCompletion(job)]
      ensures executionCount == old(executionCount)
    {
      calls := calls + [OnCompletion(job)];
    }

    method DecreaseExecutionCount()
      modifies this
      ensures executionCount == old(executionCount) - 1
      ensures calls == old(calls)
    {
      executionCount := executionCount - 1;
    }
  }

  /** A worker is busy exactly when it has no executer left; one that has
      gone past its limit is not busy and has a negative number available. */
  lemma BusyOnlyAtLimit(w: Worker)
    ensures w.IsBusy() <==> w.AvailableExecuters() == 0
    ensures w.executionCount > w.concurrency ==> !w.IsBusy() && w.AvailableExecuters() < 0
    ensures w.executionCount < w.concurrency ==> !w.IsBusy() && w.AvailableExecuters() > 0
  {
  }

  /** The error the timer of executeWithTimeout rejects with. */
  function TimeoutError(id: string): (e: Err)
    ensures e.code != CANCELLED_CODE
  {
    Err("Job " + id + " timed out", "")
  }

  /** How the promise returned by `execute` settles. Without the timeout
      path it is the handler's own promise; with it, the handler races a
      timer: the timer rejects with a timeout error, a resolved handler
      gives `true`, a rejected one passes its error through. */
  function ExecutionResult(id: string, timed: bool, timerFirst: bool, handler: Settlement): (r: Settlement)
    ensures r.Resolved? <==> handler.Resolved? && !(timed && timerFirst)
    ensures r.Rejected? && r.error.code == CANCELLED_CODE ==> r == handler
    ensures timed && timerFirst ==> r == Rejected(TimeoutError(id))
  {
    if timed && timerFirst then Rejected(TimeoutError(id)) else handler
  }

  /** Whether the race invokes the handler's CANCEL: it does when the race
      rejects (the timer won, or the handler itself rejected) and CANCEL
      is a function. */
  function RaceCancels(timed: bool, timerFirst: bool, handler: Settlement, hook: CancelHook): (invoked: bool)
    ensures invoked ==> timed && hook == HookFunction
    ensures invoked <==> ExecutionResult("", timed, timerFirst, handler).Rejected? && timed && hook == HookFunction
  {
    timed && (timerFirst || handler.Rejected?) && hook == HookFunction
  }
}
