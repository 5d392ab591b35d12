/** The in-memory job store the tests run the queue against
    (JobStoreMock in lib/module/utils/JobQueueMock.js). */
module MockStore {
  import opened Wrappers
  import opened Jobs
  import opened Seqs
  import opened Ordering

  /** The order sortJobs leaves: higher priority first and, among equal
      priorities, the later `created` first. (The first pass sorts by date
      DESCENDING, whatever its comment says, and the second pass keeps
      that order among equal priorities.) */
  predicate MockBefore(a: Job, b: Job) {
    a.priority > b.priority || (a.priority == b.priority && TextLess(b.created, a.created))
  }

  lemma MockBeforeIsStrictWeakOrder()
    ensures StrictWeakOrder(MockBefore)
  {
    forall a: Job, b: Job | MockBefore(a, b) ensures !MockBefore(b, a) {
      if a.priority == b.priority {
        TextLessAsymmetric(b.created, a.created);
      }
    }
    forall a: Job, b: Job, c: Job | !MockBefore(b, a) && !MockBefore(c, b) ensures !MockBefore(c, a) {
      if c.priority == a.priority {
        TextLessTotal(a.created, b.created);
        TextLessTotal(b.created, c.created);
        if TextLess(c.created, b.created) && TextLess(b.created, a.created) {
          TextLessTransitive(c.created, b.created, a.created);
        }
        if TextLess(c.created, a.created) {
          TextLessAsymmetric(c.created, a.created);
        } else {
          TextLessIrreflexive(a.created);
        }
      }
    }
  }

  /** sortJobs: the jobs in MockBefore order. */
  function SortJobs(jobs: seq<Job>): (r: seq<Job>)
    ensures multiset(r) == multiset(jobs) && |r| == |jobs|
    ensures SortedBy(r, MockBefore)
  {
    MockBeforeIsStrictWeakOrder();
    SortBy(jobs, MockBefore)
  }

  /** In the sorted list priorities never increase, and among equal
      priorities `created` never increases (newest first). */
  lemma SortJobsOrder(jobs: seq<Job>, i: int, j: int)
    requires 0 <= i < j < |SortJobs(jobs)|
    ensures SortJobs(jobs)[i].priority >= SortJobs(jobs)[j].priority
    ensures SortJobs(jobs)[i].priority == SortJobs(jobs)[j].priority ==>
              !TextLess(SortJobs(jobs)[i].created, SortJobs(jobs)[j].created)
  {
    var r := SortJobs(jobs);
    assert !MockBefore(r[j], r[i]);
  }

  /** getNextJob's filter: not claimed and not terminally failed. */
  predicate NextJobCandidate(j: Job) {
    j.active == FALSE && j.failed == ""
  }

  /** getWorkInProgressJob's filter: claimed and processing. */
  predicate WorkInProgress(j: Job) {
    j.active == TRUE && j.status == Processing
  }

  predicate ActiveMarked(j: Job) {
    j.active == TRUE
  }

  /** `jobs.filter(job => job.workerName === name)`. */
  function JobsOfWorker(s: seq<Job>, name: string): seq<Job> {
    if s == [] then []
    else (if s[0].workerName == name then [s[0]] else []) + JobsOfWorker(s[1..], name)
  }

  /** The worker's jobs are exactly the jobs of `s` that carry its name. */
  lemma {:induction false} JobsOfWorkerMembers(s: seq<Job>, name: string)
    ensures forall i :: 0 <= i < |JobsOfWorker(s, name)| ==>
      JobsOfWorker(s, name)[i].workerName == name && JobsOfWorker(s, name)[i] in s
    ensures forall i :: 0 <= i < |s| && s[i].workerName == name ==> s[i] in JobsOfWorker(s, name)
  {
    if s != [] {
      JobsOfWorkerMembers(s[1..], name);
      var head := if s[0].workerName == name then [s[0]] else [];
      var rest := JobsOfWorker(s[1..], name);
      assert JobsOfWorker(s, name) == head + rest;
      forall i | 0 <= i < |s| && s[i].workerName == name ensures s[i] in JobsOfWorker(s, name) {
        if i > 0 { assert s[i] == s[1..][i - 1]; }
      }
    }
  }

  /** What `jobs.filter(job => job.id !== id)` keeps. */
  function WithoutId(s: seq<Job>, id: string): (r: seq<Job>)
    ensures forall i :: 0 <= i < |r| ==> r[i].id != id && r[i] in s
    ensures forall i :: 0 <= i < |s| && s[i].id != id ==> s[i] in r
    ensures UniqueIds(s) ==> UniqueIds(r)
  {
    var keep := (j: Job) => j.id != id;
    FilterKeepsUniqueIds(s, keep);
    FilterKeepsAll(s, keep);
    Filter(s, keep)
  }

  /** What `jobs.filter(job => job.workerName !== name)` keeps. */
  function WithoutWorker(s: seq<Job>, name: string): (r: seq<Job>)
    ensures forall i :: 0 <= i < |r| ==> r[i].workerName != name && r[i] in s
    ensures forall i :: 0 <= i < |s| && s[i].workerName != name ==> s[i] in r
    ensures UniqueIds(s) ==> UniqueIds(r)
  {
    var keep := (j: Job) => j.workerName != name;
    FilterKeepsUniqueIds(s, keep);
    FilterKeepsAll(s, keep);
    Filter(s, keep)
  }

  /** `jobs.map(job => rawJob.id === job.id ? rawJob : job)`. */
  function ReplaceById(s: seq<Job>, job: Job): (r: seq<Job>)
    ensures |r| == |s|
    ensures forall i :: 0 <= i < |s| ==> r[i] == if s[i].id == job.id then job else s[i]
  {
    if s == [] then []
    else [if s[0].id == job.id then job else s[0]] + ReplaceById(s[1..], job)
  }

  /** The first job of `s` in MockBefore order, or None (the store's `{}`). */
  function FirstInOrder(s: seq<Job>): (r: Option<Job>)
    ensures r.None? <==> s == []
    ensures r.Some? ==> r.value in s && forall i :: 0 <= i < |s| ==> !MockBefore(s[i], r.value)
  {
    var sorted := SortJobs(s);
    if sorted == [] then None
    else
      assert sorted[0] in multiset(s);
      assert forall i :: 0 <= i < |s| ==> !MockBefore(s[i], sorted[0]) by {
        forall i | 0 <= i < |s| ensures !MockBefore(s[i], sorted[0]) {
          assert s[i] in multiset(sorted);
          var k :| 0 <= k < |sorted| && sorted[k] == s[i];
          TextLessIrreflexive(sorted[0].created);
        }
      }
      Some(sorted[0])
  }

  /** A sorted slice holds the first jobs: whatever of `s` comes strictly
      before a kept job is kept too. */
  lemma {:induction false} SliceIsTop(s: seq<Job>, count: int)
    ensures forall x, y :: x in Slice(SortJobs(s), count) && y in s && MockBefore(y, x) ==> y in Slice(SortJobs(s), count)
  {
    var sorted := SortJobs(s);
    forall x, y | x in Slice(sorted, count) && y in s && MockBefore(y, x) ensures y in Slice(sorted, count) {
      assert y in multiset(sorted);
      PrefixIsTop(sorted, SliceLength(|sorted|, count), MockBefore, x, y);
    }
  }

  /** The worker's jobs, sorted, then `slice(0, count)`. */
  function WorkerSlice(jobs: seq<Job>, name: string, count: int): seq<Job> {
    Slice(SortJobs(JobsOfWorker(jobs, name)), count)
  }

  /** Every job the worker's slice holds is one of the worker's jobs. */
  lemma WorkerSliceMembers(jobs: seq<Job>, name: string, count: int)
    ensures var r := WorkerSlice(jobs, name, count);
      && (forall i :: 0 <= i < |r| ==> r[i].workerName == name)
      && (forall i :: 0 <= i < |r| ==> r[i] in jobs)
  {
    var mine := JobsOfWorker(jobs, name);
    var sorted := SortJobs(mine);
    var r := Slice(sorted, count);
    JobsOfWorkerMembers(jobs, name);
    PrefixMultiset(sorted, |r|);
    forall i | 0 <= i < |r| ensures r[i].workerName == name && r[i] in jobs {
      assert r[i] in multiset(mine);
      var k :| 0 <= k < |mine| && mine[k] == r[i];
    }
  }

  lemma PrefixMultiset(s: seq<Job>, n: nat)
    requires n <= |s|
    ensures multiset(s[..n]) <= multiset(s)
  {
    assert s == s[..n] + s[n..];
  }

  lemma WorkerSliceSorted(jobs: seq<Job>, name: string, count: int)
    ensures SortedBy(WorkerSlice(jobs, name, count), MockBefore)
  {
    var sorted := SortJobs(JobsOfWorker(jobs, name));
    var r := Slice(sorted, count);
    forall i, j | 0 <= i < j < |r| ensures !MockBefore(r[j], r[i]) {
      assert r[i] == sorted[i] && r[j] == sorted[j];
    }
  }

  /** A job of the worker that sorts before a kept job is kept too. */
  lemma WorkerSliceIsTop(jobs: seq<Job>, name: string, count: int)
    ensures var r := WorkerSlice(jobs, name, count);
      forall x, i :: x in r && 0 <= i < |jobs| && jobs[i].workerName == name && MockBefore(jobs[i], x) ==> jobs[i] in r
  {
    var mine := JobsOfWorker(jobs, name);
    JobsOfWorkerMembers(jobs, name);
    SliceIsTop(mine, count);
    forall i | 0 <= i < |jobs| && jobs[i].workerName == name ensures jobs[i] in mine {
    }
  }

  /** getNextJob's answer for the list `jobs`: a job that is neither
      claimed nor terminally failed, first in sort order; None (the store's
      `{}`) exactly when there is none. */
  function NextJobIn(jobs: seq<Job>): (r: Option<Job>)
    ensures r.None? <==> forall i :: 0 <= i < |jobs| ==> !NextJobCandidate(jobs[i])
    ensures r.Some? ==> r.value in jobs && NextJobCandidate(r.value)
    ensures r.Some? ==> forall i :: 0 <= i < |jobs| && NextJobCandidate(jobs[i]) ==> !MockBefore(jobs[i], r.value)
  {
    var candidates := Filter(jobs, NextJobCandidate);
    FilterKeepsAll(jobs, NextJobCandidate);
    assert candidates != [] ==> candidates[0] in jobs;
    FirstInOrder(candidates)
  }

  /** getWorkInProgressJob's answer: a claimed job that is processing,
      first in sort order; None when there is none. */
  function WorkInProgressIn(jobs: seq<Job>): (r: Option<Job>)
    ensures r.None? <==> forall i :: 0 <= i < |jobs| ==> !WorkInProgress(jobs[i])
    ensures r.Some? ==> r.value in jobs && WorkInProgress(r.value)
    ensures r.Some? ==> forall i :: 0 <= i < |jobs| && WorkInProgress(jobs[i]) ==> !MockBefore(jobs[i], r.value)
  {
    var candidates := Filter(jobs, WorkInProgress);
    FilterKeepsAll(jobs, WorkInProgress);
    assert candidates != [] ==> candidates[0] in jobs;
    FirstInOrder(candidates)
  }

  /** Filtering keeps ids unique. */
  lemma {:induction false} FilterKeepsUniqueIds(jobs: seq<Job>, p: Job -> bool)
    ensures UniqueIds(jobs) ==> UniqueIds(Filter(jobs, p))
  {
    if jobs != [] && UniqueIds(jobs) {
      var tail := jobs[1..];
      TailUniqueIds(jobs);
      var rest := Filter(tail, p);
      FilterKeepsUniqueIds(tail, p);
      if p(jobs[0]) {
        forall j | 0 <= j < |rest| ensures rest[j].id != jobs[0].id {
          var k :| 0 <= k < |tail| && tail[k] == rest[j];
          assert jobs[k + 1] == rest[j];
        }
        ConsUniqueIds(jobs[0], rest);
        assert Filter(jobs, p) == [jobs[0]] + rest;
      } else {
        assert Filter(jobs, p) == rest;
      }
    }
  }

  lemma TailUniqueIds(jobs: seq<Job>)
    requires jobs != [] && UniqueIds(jobs)
    ensures UniqueIds(jobs[1..])
  {
    var tail := jobs[1..];
    forall a, b | 0 <= a < b < |tail| ensures tail[a].id != tail[b].id {
      assert tail[a] == jobs[a + 1] && tail[b] == jobs[b + 1];
    }
  }

  lemma ConsUniqueIds(x: Job, rest: seq<Job>)
    requires UniqueIds(rest)
    requires forall j :: 0 <= j < |rest| ==> rest[j].id != x.id
    ensures UniqueIds([x] + rest)
  {
    var s := [x] + rest;
    forall a, b | 0 <= a < b < |s| ensures s[a].id != s[b].id {
      assert s[b] == rest[b - 1];
      if a > 0 { assert s[a] == rest[a - 1]; }
    }
  }

  /** Replacing a job and then removing its id leaves what removing the id
      alone leaves: the write excuteJob does before removeJob is lost. */
  lemma {:induction false} ReplaceThenRemove(jobs: seq<Job>, job: Job)
    ensures WithoutId(ReplaceById(jobs, job), job.id) == WithoutId(jobs, job.id)
  {
    if jobs != [] {
      var r := ReplaceById(jobs, job);
      assert r == [r[0]] + r[1..] && r[1..] == ReplaceById(jobs[1..], job);
      ReplaceThenRemove(jobs[1..], job);
      assert jobs == [jobs[0]] + jobs[1..];
    }
  }

  class JobStoreMock {
    var jobs: seq<Job>

    constructor ()
      ensures jobs == []
    {
      jobs := [];
    }

    method AddJob(job: Job)
      modifies this
      ensures jobs == old(jobs) + [job]
    {
      jobs := jobs + [job];
    }

    /** Exactly the jobs with active === 1, in store order. */
    function GetActiveMarkedJobs(): (r: seq<Job>)
      reads this
      ensures forall i :: 0 <= i < |r| ==> r[i].active == TRUE && r[i] in jobs
      ensures forall i :: 0 <= i < |jobs| && jobs[i].active == TRUE ==> jobs[i] in r
      ensures |r| <= |jobs|
    {
      FilterKeepsAll(jobs, ActiveMarked);
      Filter(jobs, ActiveMarked)
    }

    /** getNextJob (see NextJobIn). */
    function GetNextJob(): Option<Job>
      reads this
    {
      NextJobIn(jobs)
    }

    /** getWorkInProgressJob (see WorkInProgressIn). */
    function GetWorkInProgressJob(): Option<Job>
      reads this
    {
      WorkInProgressIn(jobs)
    }

    /** The worker's jobs, whatever their state, sorted, then `slice(0, count)`:
        at most `count` of them when `count` is not negative, all but the
        last `-count` when it is. */
    function GetJobsForWorker(name: string, count: int): (r: seq<Job>)
      reads this
      ensures forall i :: 0 <= i < |r| ==> r[i].workerName == name
      ensures |r| == SliceLength(|JobsOfWorker(jobs, name)|, count)
      ensures count >= 0 ==> |r| <= count
    {
      WorkerSliceMembers(jobs, name, count);
      WorkerSlice(jobs, name, count)
    }

    /** The worker's batch is drawn from the store, sorted, and holds its
        first jobs: a job of the worker that sorts before a kept one is
        kept too. */
    lemma WorkerBatchIsTop(name: string, count: int)
      ensures var r := GetJobsForWorker(name, count);
        && (forall i :: 0 <= i < |r| ==> r[i] in jobs)
        && SortedBy(r, MockBefore)
        && forall x, i :: x in r && 0 <= i < |jobs| && jobs[i].workerName == name && MockBefore(jobs[i], x) ==> jobs[i] in r
    {
      WorkerSliceMembers(jobs, name, count);
      WorkerSliceSorted(jobs, name, count);
      WorkerSliceIsTop(jobs, name, count);
    }

    /** The mock answers the with-deleted query exactly like the plain one. */
    function GetJobsForWorkerWithDeleted(name: string, count: int): (r: seq<Job>)
      reads this
      ensures r == GetJobsForWorker(name, count)
    {
      WorkerSlice(jobs, name, count)
    }

    /** Every job with the record's id is replaced by it; nothing is inserted. */
    method UpdateJob(job: Job)
      modifies this
      ensures |jobs| == |old(jobs)|
      ensures forall i :: 0 <= i < |jobs| ==> jobs[i] == if old(jobs)[i].id == job.id then job else old(jobs)[i]
      ensures jobs == ReplaceById(old(jobs), job)
    {
      jobs := ReplaceById(jobs, job);
    }

    method RemoveJob(job: Job)
      modifies this
      ensures jobs == WithoutId(old(jobs), job.id)
    {
      jobs := WithoutId(jobs, job.id);
    }

    /** Identical to RemoveJob: the mock has no soft delete. */
    method RemoveJobPermanently(job: Job)
      modifies this
      ensures jobs == WithoutId(old(jobs), job.id)
    {
      jobs := WithoutId(jobs, job.id);
    }

    method RemoveJobsByWorkerName(name: string)
      modifies this
      ensures jobs == WithoutWorker(old(jobs), name)
    {
      jobs := WithoutWorker(jobs, name);
    }

    method DeleteAllJobs()
      modifies this
      ensures jobs == []
    {
      jobs := [];
    }
  }
}
