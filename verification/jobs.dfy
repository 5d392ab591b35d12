/** The job record shared by the queue and the in-memory store
    (RawJob and JobStatus in src/models/Job.ts). */
module Jobs {

  /** The five lifecycle states of a job. */
  datatype JobStatus = Idle | Processing | Finished | Failed | Cancelled

  /** SQLite has no booleans, so the record's `active` flag is 0 or 1. */
  type Flag = b: int | 0 <= b <= 1

  const FALSE: Flag := 0
  const TRUE: Flag := 1

  /** A thrown value as the queue sees it: its message, and its `code`
      ("" for an error that carries none, such as a plain `Error`). */
  datatype Err = Err(message: string, code: string)

  /** The code that makes a failure count as a cancellation. */
  const CANCELLED_CODE: string := "cancelled"
  /** The code of the queue's own configuration and state errors. */
  const ERROR_CODE: string := "error"
  /** What JavaScript throws when a property of `undefined` is read. */
  const TYPE_ERROR: Err := Err("TypeError", "")

  /** The `metaData` JSON text, decoded: the error trail and the failure count. */
  datatype MetaData = MetaData(errors: seq<Err>, failedAttempts: int)

  /** A stored job. `created` and `failed` are ISO-8601 timestamps as text;
      `failed` is "" until the attempts are used up. */
  datatype Job = Job(
    id: string,
    workerName: string,
    active: Flag,
    payload: string,
    metaData: MetaData,
    attempts: int,
    created: string,
    failed: string,
    timeout: int,
    priority: int,
    isDeleted: bool,
    status: JobStatus)

  /** No two stored jobs share an id (ids are fresh UUIDs). */
  predicate UniqueIds(s: seq<Job>) {
    forall i, j :: 0 <= i < j < |s| ==> s[i].id != s[j].id
  }
}
