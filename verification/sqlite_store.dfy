/** The row-set meaning of the iOS store (ios/Job.swift): the `Job` table as
    a sequence of rows, the SQL queries as the rows they select, and the
    UPDATE/DELETE statements as in-place changes to those rows. */
module SqliteStore {
  import opened Wrappers
  import opened Seqs
  import opened Ordering

  /** Swift's `Int32`. */
  type Int32 = x: int | -0x8000_0000 <= x < 0x8000_0000

  /** One row of the `Job` table, with the Swift struct's field types. */
  datatype Row = Row(
    id: string,
    workerName: string,
    active: Int32,
    payload: string,
    metaData: string,
    attempts: Int32,
    created: string,
    failed: string,
    timeout: Int32,
    priority: Int32,
    isDeleted: Int32,
    status: string)

  /** A value of the `[String: Any]` dictionaries exchanged with JavaScript. */
  datatype Value = Text(text: string) | Int(number: Int32)

  type Dictionary = map<string, Value>

  const TEXT_KEYS: set<string> := {"id", "workerName", "payload", "metaData", "created", "failed", "status"}
  const INT_KEYS: set<string> := {"active", "attempts", "timeout", "priority", "isDeleted"}

  /** toDictionary: one entry per field, under the field's Swift name. */
  function ToDictionary(r: Row): (d: Dictionary)
    ensures d.Keys == TEXT_KEYS + INT_KEYS
  {
    map[
      "id" := Text(r.id), "workerName" := Text(r.workerName), "active" := Int(r.active),
      "payload" := Text(r.payload), "metaData" := Text(r.metaData), "attempts" := Int(r.attempts),
      "created" := Text(r.created), "failed" := Text(r.failed), "timeout" := Int(r.timeout),
      "priority" := Int(r.priority), "isDeleted" := Int(r.isDeleted), "status" := Text(r.status)]
  }

  function TextField(d: Dictionary, k: string): Option<string> {
    if k in d && d[k].Text? then Some(d[k].text) else None
  }

  function IntField(d: Dictionary, k: string): Option<Int32> {
    if k in d && d[k].Int? then Some(d[k].number) else None
  }

  /** The dictionary holds every field, each with the kind its forced cast expects. */
  ghost predicate WellFormed(d: Dictionary) {
    && (forall k :: k in TEXT_KEYS ==> k in d && d[k].Text?)
    && (forall k :: k in INT_KEYS ==> k in d && d[k].Int?)
  }

  /** createJobFromDictionary. Every field is read with a forced cast (`as!`),
      which traps on a missing key or a value of the other kind: None. */
  function FromDictionary(d: Dictionary): (r: Option<Row>)
    ensures r.Some? <==> WellFormed(d)
  {
    var id := TextField(d, "id");
    var workerName := TextField(d, "workerName");
    var active := IntField(d, "active");
    var payload := TextField(d, "payload");
    var metaData := TextField(d, "metaData");
    var attempts := IntField(d, "attempts");
    var created := TextField(d, "created");
    var failed := TextField(d, "failed");
    var timeout := IntField(d, "timeout");
    var priority := IntField(d, "priority");
    var isDeleted := IntField(d, "isDeleted");
    var status := TextField(d, "status");
    if id.Some? && workerName.Some? && active.Some? && payload.Some? && metaData.Some?
      && attempts.Some? && created.Some? && failed.Some? && timeout.Some?
      && priority.Some? && isDeleted.Some? && status.Some?
    then
      Some(Row(id.value, workerName.value, active.value, payload.value, metaData.value,
               attempts.value, created.value, failed.value, timeout.value, priority.value,
               isDeleted.value, status.value))
    else
      None
  }

  /** Reading back a row's own dictionary gives the row. */
  lemma DictionaryRoundTrip(r: Row)
    ensures FromDictionary(ToDictionary(r)) == Some(r)
  {
  }

  /** A dictionary that reads as a row is that row's dictionary, apart from
      any keys that are not fields. */
  lemma DictionaryRoundTripBack(d: Dictionary, r: Row)
    requires FromDictionary(d) == Some(r)
    ensures ToDictionary(r) == map k | k in d && k in TEXT_KEYS + INT_KEYS :: d[k]
  {
  }

  // ---- getJobsByQuery: the soft-delete rewrite of a query string ----

  /** The rewrite's case-insensitive match, on ASCII letters. */
  function AsciiLower(c: char): char {
    if 'A' <= c <= 'Z' then (c as int + 32) as char else c
  }

  const WHERE_REPLACEMENT := "WHERE is_deleted = 0 AND"
  const DELETED_SUFFIX := " WHERE is_deleted = 0"

  /** `w` is "where" in some letter case. */
  predicate IsWhere(w: string) {
    |w| == 5 && AsciiLower(w[0]) == 'w' && AsciiLower(w[1]) == 'h' && AsciiLower(w[2]) == 'e'
    && AsciiLower(w[3]) == 'r' && AsciiLower(w[4]) == 'e'
  }

  /** "where", in any letter case, starts at position `i` of `q`. */
  predicate WhereAt(q: string, i: nat) {
    i + 5 <= |q| && IsWhere(q[i..i + 5])
  }

  predicate ContainsWhere(q: string) {
    exists i: nat | i < |q| :: WhereAt(q, i)
  }

  /** `replacingOccurrences(of: "where", with: ..., options: .caseInsensitive)`:
      left to right, each occurrence replaced, the scan going on after it. */
  function ReplaceWhere(q: string): string
    decreases |q|
  {
    if |q| < 5 then q
    else if WhereAt(q, 0) then WHERE_REPLACEMENT + ReplaceWhere(q[5..])
    else [q[0]] + ReplaceWhere(q[1..])
  }

  /** getJobsByQuery's query text. */
  function RewriteQuery(q: string): string {
    if ContainsWhere(q) then ReplaceWhere(q) else q + DELETED_SUFFIX
  }

  lemma WhereAtShift(q: string, i: nat)
    requires |q| > 0
    ensures WhereAt(q, i + 1) == WhereAt(q[1..], i)
  {
    if i + 6 <= |q| {
      assert q[1..][i..i + 5] == q[i + 1..i + 6];
    }
  }

  /** A query without "where" is left as it is by the replacement. */
  lemma {:induction false} ReplaceWhereIdentity(q: string)
    requires !ContainsWhere(q)
    ensures ReplaceWhere(q) == q
  {
    if |q| >= 5 {
      assert !WhereAt(q, 0);
      forall i: nat ensures !WhereAt(q[1..], i) {
        WhereAtShift(q, i);
      }
      ReplaceWhereIdentity(q[1..]);
      assert q == [q[0]] + q[1..];
    }
  }

  /** The text before the first "where" is kept, the occurrence becomes the
      replacement, and the scan resumes just after it. */
  lemma {:induction false} ReplaceWhereFirst(q: string, i: nat)
    requires WhereAt(q, i)
    requires forall j: nat :: j < i ==> !WhereAt(q, j)
    ensures ReplaceWhere(q) == q[..i] + (WHERE_REPLACEMENT + ReplaceWhere(q[i + 5..]))
  {
    if i == 0 {
      assert q[..0] == [];
    } else {
      FirstWhereShift(q, i);
      ReplaceWhereFirst(q[1..], i - 1);
      assert q[1..][i - 1 + 5..] == q[i + 5..];
      ReplaceWhereCopies(q, i, WHERE_REPLACEMENT + ReplaceWhere(q[i + 5..]));
    }
  }

  /** The first "where" of `q`, when not at its start, is one position
      earlier and still the first in the rest of `q`. */
  lemma FirstWhereShift(q: string, i: nat)
    requires 0 < i && WhereAt(q, i)
    requires forall j: nat :: j < i ==> !WhereAt(q, j)
    ensures |q| >= 5 && !WhereAt(q, 0)
    ensures WhereAt(q[1..], i - 1) && forall j: nat :: j < i - 1 ==> !WhereAt(q[1..], j)
  {
    assert !WhereAt(q, 0);
    WhereAtShift(q, i - 1);
    forall j: nat | j < i - 1 ensures !WhereAt(q[1..], j) {
      WhereAtShift(q, j);
    }
  }

  /** Away from a match the replacement copies one character and goes on. */
  lemma ReplaceWhereCopies(q: string, i: nat, tail: string)
    requires 0 < i <= |q| && |q| >= 5 && !WhereAt(q, 0)
    requires ReplaceWhere(q[1..]) == q[1..][..i - 1] + tail
    ensures ReplaceWhere(q) == q[..i] + tail
  {
    ReplaceWhereSkips(q);
    ConsPrefix(q, i, tail, ReplaceWhere(q[1..]));
  }

  lemma ReplaceWhereSkips(q: string)
    requires |q| >= 5 && !WhereAt(q, 0)
    ensures ReplaceWhere(q) == [q[0]] + ReplaceWhere(q[1..])
  {
  }

  /** The deleted-row filter "WHERE is_deleted = 0" starts at position `i` of `m`. */
  predicate FilterAt(m: string, i: nat) {
    i + 20 <= |m| && m[i..i + 20] == "WHERE is_deleted = 0"
  }

  /** Whatever the query, the rewritten one carries the deleted-row filter:
      at its first "where" when it has one, at its end otherwise. */
  lemma RewriteAddsFilter(q: string)
    ensures ContainsWhere(q) ==> FilterAt(RewriteQuery(q), FirstWhere(q))
    ensures !ContainsWhere(q) ==> FilterAt(RewriteQuery(q), |q| + 1)
  {
    var m := RewriteQuery(q);
    if ContainsWhere(q) {
      var i := FirstWhere(q);
      ReplaceWhereFirst(q, i);
      assert m[i..i + 20] == WHERE_REPLACEMENT[..20];
    } else {
      assert m[|q| + 1..|q| + 21] == DELETED_SUFFIX[1..];
    }
  }

  /** The position of the first "where". */
  function FirstWhere(q: string): (i: nat)
    requires ContainsWhere(q)
    ensures WhereAt(q, i) && forall j: nat :: j < i ==> !WhereAt(q, j)
  {
    var k: nat :| WhereAt(q, k);
    FirstWhereFrom(q, 0, k)
  }

  function FirstWhereFrom(q: string, from: nat, k: nat): (i: nat)
    requires from <= k && WhereAt(q, k)
    requires forall j: nat :: j < from ==> !WhereAt(q, j)
    ensures WhereAt(q, i) && forall j: nat :: j < i ==> !WhereAt(q, j)
    decreases k - from
  {
    if WhereAt(q, from) then from else FirstWhereFrom(q, from + 1, k)
  }

  /** The statement `sqlite3_prepare` compiles: the text up to and including
      the first ';' (the rest is the unused tail). */
  function FirstStatement(s: string): string {
    if s == [] then []
    else if s[0] == ';' then [';']
    else [s[0]] + FirstStatement(s[1..])
  }

  lemma {:induction false} FirstStatementOfPrefix(q: string, tail: string)
    requires |q| > 0 && q[|q| - 1] == ';'
    requires forall k :: 0 <= k < |q| - 1 ==> q[k] != ';'
    ensures FirstStatement(q + tail) == q
  {
    assert (q + tail)[0] == q[0];
    if |q| > 1 {
      assert (q + tail)[1..] == q[1..] + tail;
      FirstStatementOfPrefix(q[1..], tail);
      assert q == [q[0]] + q[1..];
    }
  }

  /** A query with no "where" that ends with its only ';' gets the filter
      appended after the ';', so the statement that runs is the query as it
      was: getJobsWithDeleted's query keeps returning soft-deleted rows. */
  lemma AppendedFilterIsNotRun(q: string)
    requires !ContainsWhere(q)
    requires |q| > 0 && q[|q| - 1] == ';'
    requires forall k :: 0 <= k < |q| - 1 ==> q[k] != ';'
    ensures FirstStatement(RewriteQuery(q)) == q
  {
    FirstStatementOfPrefix(q, DELETED_SUFFIX);
  }

  // ---- Orders and row predicates of the queries ----

  /** `datetime(created)`: the timestamp to the second, its first 19
      characters for the ISO-8601 texts the queue writes. */
  function DatetimeKey(created: string): string {
    if |created| >= 19 then created[..19] else created
  }

  /** ORDER BY priority DESC, datetime(created): `a` comes strictly before `b`. */
  predicate Precedes(a: Row, b: Row) {
    a.priority > b.priority
    || (a.priority == b.priority && TextLess(DatetimeKey(a.created), DatetimeKey(b.created)))
  }

  lemma PrecedesIsStrictWeakOrder()
    ensures StrictWeakOrder(Precedes)
  {
    forall a: Row, b: Row | Precedes(a, b) ensures !Precedes(b, a) {
      if a.priority == b.priority {
        TextLessAsymmetric(DatetimeKey(a.created), DatetimeKey(b.created));
      }
    }
    forall a: Row, b: Row, c: Row | !Precedes(b, a) && !Precedes(c, b) ensures !Precedes(c, a) {
      if c.priority == a.priority {
        var ka, kb, kc := DatetimeKey(a.created), DatetimeKey(b.created), DatetimeKey(c.created);
        TextLessTotal(ka, kb);
        TextLessTotal(kb, kc);
        if TextLess(ka, kb) && TextLess(kb, kc) {
          TextLessTransitive(ka, kb, kc);
        }
        if TextLess(ka, kc) {
          TextLessAsymmetric(ka, kc);
        } else {
          TextLessIrreflexive(kc);
        }
      }
    }
  }

  /** Unclaimed, neither failed nor cancelled, not deleted: the rows
      getNextJob and getJobsForWorker choose from (ios/Job.swift:119, 151). */
  predicate Claimable(active: int, status: string, isDeleted: int) {
    active == 0 && status != "failed" && status != "cancelled" && isDeleted == 0
  }

  predicate NextEligible(r: Row) {
    Claimable(r.active, r.status, r.isDeleted)
  }

  /** getWorkInProgressJob's rows: processing yet with active 0. */
  predicate InProgress(r: Row) {
    r.active == 0 && r.status == "processing" && r.isDeleted == 0
  }

  predicate WorkerEligible(r: Row, name: string) {
    NextEligible(r) && r.workerName == name
  }

  /** getJobsForWorkerWithDeleted's rows: neither status nor is_deleted is looked at. */
  predicate WorkerEligibleWithDeleted(r: Row, name: string) {
    r.active == 0 && r.workerName == name
  }

  predicate ActiveMarked(r: Row) {
    r.active == 1 && r.isDeleted == 0
  }

  predicate NotDeleted(r: Row) {
    r.isDeleted == 0
  }

  /** The rows a LIMIT keeps: a negative limit keeps them all. */
  function LimitLength(n: nat, limit: int): (k: nat)
    ensures k <= n
    ensures limit >= 0 ==> k <= limit
    ensures k < n ==> k == limit
  {
    if 0 <= limit < n then limit else n
  }

  /** SELECT * WHERE p ORDER BY priority DESC, datetime(created) LIMIT limit.
      Rows that tie on both keys come in an order SQLite leaves open; the
      contract holds for any such order. */
  function SelectOrdered(rows: seq<Row>, p: Row -> bool, limit: int): (r: seq<Row>)
    ensures forall i :: 0 <= i < |r| ==> p(r[i])
    ensures multiset(r) <= multiset(rows)
    ensures |r| == LimitLength(|Filter(rows, p)|, limit)
    ensures limit < 0 ==> multiset(r) == multiset(Filter(rows, p))
    ensures SortedBy(r, Precedes)
    ensures forall x, i :: x in r && 0 <= i < |rows| && p(rows[i]) && Precedes(rows[i], x) ==> rows[i] in r
  {
    PrecedesIsStrictWeakOrder();
    var matching := Filter(rows, p);
    FilterKeepsAll(rows, p);
    var sorted := SortBy(matching, Precedes);
    var n := LimitLength(|sorted|, limit);
    SortedPrefix(sorted, n, Precedes);
    forall i | 0 <= i < n ensures p(sorted[..n][i]) {
      assert sorted[i] in multiset(matching);
    }
    forall x, i | x in sorted[..n] && 0 <= i < |rows| && p(rows[i]) && Precedes(rows[i], x)
      ensures rows[i] in sorted[..n]
    {
      assert rows[i] in multiset(sorted);
      PrefixIsTop(sorted, n, Precedes, x, rows[i]);
    }
    assert limit < 0 ==> sorted[..n] == sorted;
    sorted[..n]
  }

  /** The same query with LIMIT 1: the first row in that order, or none. */
  function SelectFirst(rows: seq<Row>, p: Row -> bool): (r: Option<Row>)
    ensures r.None? <==> forall i :: 0 <= i < |rows| ==> !p(rows[i])
    ensures r.Some? ==> r.value in rows && p(r.value)
    ensures r.Some? ==> forall i :: 0 <= i < |rows| && p(rows[i]) ==> !Precedes(rows[i], r.value)
  {
    var top := SelectOrdered(rows, p, 1);
    if top == [] then
      FilterKeepsAll(rows, p);
      assert |Filter(rows, p)| == 0;
      None
    else
      assert |top| == 1;
      assert top[0] in multiset(rows);
      assert forall i :: 0 <= i < |rows| && p(rows[i]) ==> !Precedes(rows[i], top[0]) by {
        forall i | 0 <= i < |rows| && p(rows[i]) ensures !Precedes(rows[i], top[0]) {
          TextLessIrreflexive(DatetimeKey(top[0].created));
        }
      }
      Some(top[0])
  }

  // ---- The table ----

  /** `id` is the table's PRIMARY KEY. */
  predicate UniqueRowIds(rows: seq<Row>) {
    forall i, j :: 0 <= i < j < |rows| ==> rows[i].id != rows[j].id
  }

  function HasId(id: string): Row -> bool {
    (r: Row) => r.id == id
  }

  function OtherId(id: string): Row -> bool {
    (r: Row) => r.id != id
  }

  function OfWorker(name: string): Row -> bool {
    (r: Row) => r.workerName == name
  }

  function LiveWithId(id: string): Row -> bool {
    (r: Row) => r.id == id && r.isDeleted == 0
  }

  function WorkerRows(name: string): Row -> bool {
    (r: Row) => WorkerEligible(r, name)
  }

  function WorkerRowsWithDeleted(name: string): Row -> bool {
    (r: Row) => WorkerEligibleWithDeleted(r, name)
  }

  function AnyRow(): Row -> bool {
    (r: Row) => true
  }

  /** update's SET list: active, failed, meta_data, attempts and status come
      from `job`; every other column keeps the row's value. */
  function UpdatedRow(r: Row, job: Row): (u: Row)
    ensures u.id == r.id && u.workerName == r.workerName && u.payload == r.payload
    ensures u.created == r.created && u.timeout == r.timeout && u.priority == r.priority
    ensures u.isDeleted == r.isDeleted
    ensures u.active == job.active && u.failed == job.failed && u.metaData == job.metaData
    ensures u.attempts == job.attempts && u.status == job.status
  {
    r.(active := job.active, failed := job.failed, metaData := job.metaData,
       attempts := job.attempts, status := job.status)
  }

  /** The columns update leaves alone. */
  predicate SameFixedColumns(r: Row, job: Row) {
    && r.id == job.id && r.workerName == job.workerName && r.payload == job.payload
    && r.created == job.created && r.timeout == job.timeout && r.priority == job.priority
    && r.isDeleted == job.isDeleted
  }

  /** The stored row becomes the record passed to update exactly when the
      two already agree on every column update does not write: a changed
      priority, payload or timeout, or a deleted flag, never reaches the table. */
  lemma UpdateStoresRecordIff(r: Row, job: Row)
    ensures UpdatedRow(r, job) == job <==> SameFixedColumns(r, job)
  {
  }

  lemma {:induction false} FilterKeepsUniqueIds(rows: seq<Row>, p: Row -> bool)
    requires UniqueRowIds(rows)
    ensures UniqueRowIds(Filter(rows, p))
  {
    if rows != [] {
      var rest := Filter(rows[1..], p);
      FilterKeepsUniqueIds(rows[1..], p);
      if p(rows[0]) {
        forall j | 0 <= j < |rest| ensures rest[j].id != rows[0].id {
          var k :| 0 <= k < |rows[1..]| && rows[1..][k] == rest[j];
          assert rows[k + 1] == rest[j];
        }
      }
    }
  }

  /** The rows whose id differs from `id`, collected one row at a time. */
  method DropId(rows: seq<Row>, id: string) returns (kept: seq<Row>)
    ensures kept == Filter(rows, OtherId(id))
  {
    kept := [];
    var i := 0;
    while i < |rows|
      invariant 0 <= i <= |rows|
      invariant kept == Filter(rows[..i], OtherId(id))
    {
      FilterStep(rows, i, OtherId(id));
      if rows[i].id != id {
        kept := kept + [rows[i]];
      }
      i := i + 1;
    }
    assert rows[..i] == rows;
  }

  class JobTable {
    var rows: seq<Row>

    ghost predicate Valid()
      reads this
    {
      UniqueRowIds(rows)
    }

    constructor ()
      ensures Valid() && rows == []
    {
      rows := [];
    }

    /** add: INSERT of a new row; a second row with the same id violates the
        PRIMARY KEY, the statement fails and the table is unchanged. */
    method Add(row: Row) returns (inserted: bool)
      requires Valid()
      modifies this
      ensures Valid()
      ensures inserted <==> forall i :: 0 <= i < |old(rows)| ==> old(rows)[i].id != row.id
      ensures rows == if inserted then old(rows) + [row] else old(rows)
    {
      inserted := forall i | 0 <= i < |rows| :: rows[i].id != row.id;
      if inserted {
        rows := rows + [row];
      }
    }

    /** getJobBy: the row with that id unless it is soft-deleted. */
    function GetJobBy(id: string): (r: Option<Row>)
      reads this
      ensures r.Some? ==> r.value in rows && r.value.id == id && r.value.isDeleted == 0
      ensures r.None? <==> forall i :: 0 <= i < |rows| ==> !(rows[i].id == id && rows[i].isDeleted == 0)
    {
      var found := Filter(rows, LiveWithId(id));
      FilterKeepsAll(rows, LiveWithId(id));
      if found == [] then None else Some(found[0])
    }

    /** getNextJob: a claimable row with the highest priority and, among
        those, the earliest creation second; None when no row is claimable. */
    function GetNextJob(): (r: Option<Row>)
      reads this
      ensures r.None? <==> forall i :: 0 <= i < |rows| ==> !NextEligible(rows[i])
      ensures r.Some? ==> r.value in rows && NextEligible(r.value)
      ensures r.Some? ==> forall i :: 0 <= i < |rows| && NextEligible(rows[i]) ==> !Precedes(rows[i], r.value)
    {
      SelectFirst(rows, NextEligible)
    }

    /** getWorkInProgressJob: first in order among the processing rows with active 0. */
    function GetWorkInProgressJob(): (r: Option<Row>)
      reads this
      ensures r.None? <==> forall i :: 0 <= i < |rows| ==> !InProgress(rows[i])
      ensures r.Some? ==> r.value in rows && InProgress(r.value)
      ensures r.Some? ==> forall i :: 0 <= i < |rows| && InProgress(rows[i]) ==> !Precedes(rows[i], r.value)
    {
      SelectFirst(rows, InProgress)
    }

    /** getJobsForWorker: the worker's first claimable rows in queue order,
        at most `count` of them (all of them for a negative count). */
    function GetJobsForWorker(name: string, count: Int32): (r: seq<Row>)
      reads this
      ensures forall i :: 0 <= i < |r| ==> WorkerEligible(r[i], name)
      ensures multiset(r) <= multiset(rows)
      ensures count >= 0 ==> |r| <= count
      ensures |r| == LimitLength(|Filter(rows, WorkerRows(name))|, count)
      ensures SortedBy(r, Precedes)
      ensures forall x, i :: x in r && 0 <= i < |rows| && WorkerEligible(rows[i], name) && Precedes(rows[i], x) ==> rows[i] in r
    {
      SelectOrdered(rows, WorkerRows(name), count)
    }

    /** getJobsForWorkerWithDeleted: the same without the status and
        is_deleted conditions. */
    function GetJobsForWorkerWithDeleted(name: string, count: Int32): (r: seq<Row>)
      reads this
      ensures forall i :: 0 <= i < |r| ==> WorkerEligibleWithDeleted(r[i], name)
      ensures multiset(r) <= multiset(rows)
      ensures count >= 0 ==> |r| <= count
      ensures |r| == LimitLength(|Filter(rows, WorkerRowsWithDeleted(name))|, count)
      ensures SortedBy(r, Precedes)
      ensures forall x, i :: x in r && 0 <= i < |rows| && WorkerEligibleWithDeleted(rows[i], name) && Precedes(rows[i], x) ==> rows[i] in r
    {
      SelectOrdered(rows, WorkerRowsWithDeleted(name), count)
    }

    /** getJobs: every row not soft-deleted, in queue order. */
    function GetJobs(): (r: seq<Row>)
      reads this
      ensures forall i :: 0 <= i < |r| ==> r[i].isDeleted == 0
      ensures |r| == |Filter(rows, NotDeleted)|
      ensures multiset(r) <= multiset(rows)
      ensures SortedBy(r, Precedes)
    {
      SelectOrdered(rows, NotDeleted, -1)
    }

    /** getJobsWithDeleted: every row, soft-deleted ones included, in queue
        order (the rewrite's filter lands after the statement, see
        AppendedFilterIsNotRun). */
    function GetJobsWithDeleted(): (r: seq<Row>)
      reads this
      ensures multiset(r) == multiset(rows)
      ensures SortedBy(r, Precedes)
    {
      FilterAll(rows, AnyRow());
      SelectOrdered(rows, AnyRow(), -1)
    }

    /** getActiveMarkedJobs: exactly the claimed rows that are not soft-deleted. */
    function GetActiveMarkedJobs(): (r: seq<Row>)
      reads this
      ensures forall i :: 0 <= i < |r| ==> ActiveMarked(r[i])
      ensures forall x :: x in rows && ActiveMarked(x) ==> multiset(r)[x] == multiset(rows)[x]
      ensures multiset(r) <= multiset(rows)
    {
      var r := Filter(rows, ActiveMarked);
      assert forall x :: x in rows && ActiveMarked(x) ==> multiset(r)[x] == multiset(rows)[x] by {
        forall x | x in rows && ActiveMarked(x) ensures multiset(r)[x] == multiset(rows)[x] {
          FilterKeepsCount(rows, ActiveMarked, x);
        }
      }
      r
    }

    /** update: the rows with the record's id take its active, failed,
        meta_data, attempts and status; nothing else changes. A soft-deleted
        row is updated too. */
    method Update(job: Row)
      requires Valid()
      modifies this
      ensures Valid()
      ensures |rows| == |old(rows)|
      ensures forall i :: 0 <= i < |rows| ==>
        rows[i] == if old(rows)[i].id == job.id then UpdatedRow(old(rows)[i], job) else old(rows)[i]
    {
      var i := 0;
      while i < |rows|
        invariant 0 <= i <= |rows| == |old(rows)|
        invariant forall k :: 0 <= k < i ==>
          rows[k] == if old(rows)[k].id == job.id then UpdatedRow(old(rows)[k], job) else old(rows)[k]
        invariant forall k :: i <= k < |rows| ==> rows[k] == old(rows)[k]
      {
        if rows[i].id == job.id {
          rows := rows[i := UpdatedRow(rows[i], job)];
        }
        i := i + 1;
      }
    }

    /** UPDATE job SET is_deleted = 1 WHERE p: the rows stay, flagged. */
    method SoftDeleteWhere(p: Row -> bool)
      requires Valid()
      modifies this
      ensures Valid()
      ensures |rows| == |old(rows)|
      ensures forall i :: 0 <= i < |rows| ==>
        rows[i] == if p(old(rows)[i]) then old(rows)[i].(isDeleted := 1) else old(rows)[i]
    {
      var i := 0;
      while i < |rows|
        invariant 0 <= i <= |rows| == |old(rows)|
        invariant forall k :: 0 <= k < i ==>
          rows[k] == if p(old(rows)[k]) then old(rows)[k].(isDeleted := 1) else old(rows)[k]
        invariant forall k :: i <= k < |rows| ==> rows[k] == old(rows)[k]
      {
        if p(rows[i]) {
          rows := rows[i := rows[i].(isDeleted := 1)];
        }
        i := i + 1;
      }
    }

    /** delete: the soft delete of one id; the row stays but no query that
        skips deleted rows returns it any more. */
    method Delete(job: Row)
      requires Valid()
      modifies this
      ensures Valid()
      ensures |rows| == |old(rows)|
      ensures forall i :: 0 <= i < |rows| ==>
        rows[i] == if old(rows)[i].id == job.id then old(rows)[i].(isDeleted := 1) else old(rows)[i]
      ensures GetJobBy(job.id).None?
    {
      SoftDeleteWhere(HasId(job.id));
    }

    /** deleteJobsByWorkerName: the soft delete of every row of the worker. */
    method DeleteJobsByWorkerName(name: string)
      requires Valid()
      modifies this
      ensures Valid()
      ensures |rows| == |old(rows)|
      ensures forall i :: 0 <= i < |rows| ==>
        rows[i] == if old(rows)[i].workerName == name then old(rows)[i].(isDeleted := 1) else old(rows)[i]
      ensures forall i :: 0 <= i < |rows| && rows[i].workerName == name ==> !NextEligible(rows[i])
    {
      SoftDeleteWhere(OfWorker(name));
    }

    /** deletePermanently: the row with that id leaves the table; the others
        keep their order. */
    method DeletePermanently(job: Row)
      requires Valid()
      modifies this
      ensures Valid()
      ensures rows == Filter(old(rows), OtherId(job.id))
      ensures forall i :: 0 <= i < |rows| ==> rows[i].id != job.id
      ensures forall i :: 0 <= i < |old(rows)| && old(rows)[i].id != job.id ==> old(rows)[i] in rows
    {
      var kept := DropId(rows, job.id);
      FilterKeepsUniqueIds(rows, OtherId(job.id));
      FilterKeepsAll(rows, OtherId(job.id));
      rows := kept;
    }
  }
}
