/** Job rows and the claim every queue shares (app/repositories/job_claims.py and the three *_jobs.py). */
module Jobs {
  import opened Wrappers

  const LEASE_SECONDS: nat := 15 * 60
  const MAX_ATTEMPTS: nat := 3
  const MAX_ERROR_CHARS: nat := 1024

  datatype Status = Queued | Running | Completed | Failed

  /** One row; `S` says what the job is about, `R` is its result. */
  datatype Job<+S, +R> = Job(
    subject: S, createdAt: nat, status: Status, result: Option<R>, error: Option<string>, attempts: nat,
    lease: Option<nat>)

  type Table<S, R> = map<nat, Job<S, R>>

  predicate Active<S, R>(j: Job<S, R>) {
    j.status == Queued || j.status == Running
  }

  // ----- The four row updates -----

  function NewJob<S, R>(subject: S, now: nat): Job<S, R> {
    Job(subject, now, Queued, None, None, 0, None)
  }

  /** One more attempt under a fresh lease, or past the cap straight into failure. */
  function ClaimRow<S, R>(j: Job<S, R>, now: nat): Job<S, R> {
    if j.attempts + 1 > MAX_ATTEMPTS then
      j.(attempts := j.attempts + 1, status := Failed, result := None,
         error := Some("max_attempts_exceeded"), lease := None)
    else j.(attempts := j.attempts + 1, status := Running, lease := Some(now + LEASE_SECONDS))
  }

  function CompletedRow<S, R>(j: Job<S, R>, result: R): Job<S, R> {
    j.(status := Completed, result := Some(result), error := None, lease := None)
  }

  function FailedRow<S, R>(j: Job<S, R>, error: string): Job<S, R> {
    var cut := if |error| <= MAX_ERROR_CHARS then error else error[..MAX_ERROR_CHARS];
    j.(status := Failed, result := None, error := Some(cut), lease := None)
  }

  // ----- Which row is next -----

  predicate Runnable<S, R>(j: Job<S, R>, now: nat) {
    j.status == Queued || (j.status == Running && j.lease.Some? && j.lease.value <= now)
  }

  /** `ORDER BY created_at ASC, id ASC`. */
  predicate Older<S, R>(rows: Table<S, R>, a: nat, b: nat) {
    a in rows && b in rows
    && (rows[a].createdAt < rows[b].createdAt || (rows[a].createdAt == rows[b].createdAt && a < b))
  }

  predicate IsNext<S, R>(rows: Table<S, R>, now: nat, id: nat) {
    id in rows && Runnable(rows[id], now)
    && forall other <- rows :: Runnable(rows[other], now) && other != id ==> Older(rows, id, other)
  }

  predicate AnyRunnable<S, R>(rows: Table<S, R>, now: nat) {
    exists id <- rows :: Runnable(rows[id], now)
  }

  /** Among the runnable rows in `ids` one is oldest. */
  lemma {:induction false} OldestIn<S, R>(rows: Table<S, R>, now: nat, ids: set<nat>) returns (id: nat)
    requires ids <= rows.Keys && exists i <- ids :: Runnable(rows[i], now)
    ensures id in ids && Runnable(rows[id], now)
    ensures forall i <- ids :: Runnable(rows[i], now) && i != id ==> Older(rows, id, i)
    decreases |ids|
  {
    id :| id in ids && Runnable(rows[id], now);
    var rest := ids - {id};
    if exists i <- rest :: Runnable(rows[i], now) {
      var best := OldestIn(rows, now, rest);
      if Older(rows, best, id) {
        id := best;
      }
    }
  }

  lemma {:induction false} NextExists<S, R>(rows: Table<S, R>, now: nat)
    ensures AnyRunnable(rows, now) <==> exists id: nat :: IsNext(rows, now, id)
  {
    if AnyRunnable(rows, now) {
      var id := OldestIn(rows, now, rows.Keys);
      assert IsNext(rows, now, id);
    }
  }

  ghost function NextId<S, R>(rows: Table<S, R>, now: nat): Option<nat> {
    if exists id: nat :: IsNext(rows, now, id) then
      var id: nat :| IsNext(rows, now, id);
      Some(id)
    else None
  }

  /** The claimed row is the oldest runnable one; nothing is claimed only when nothing is runnable. */
  lemma {:induction false} NextIdIsOldest<S, R>(rows: Table<S, R>, now: nat)
    ensures NextId(rows, now).None? <==> !AnyRunnable(rows, now)
    ensures forall id: nat :: NextId(rows, now) == Some(id) <==> IsNext(rows, now, id)
  {
    NextExists(rows, now);
    forall id: nat | IsNext(rows, now, id) ensures NextId(rows, now) == Some(id) {
      var other := NextId(rows, now).value;
      assert IsNext(rows, now, other);
      assert other != id ==> Older(rows, id, other) && Older(rows, other, id);
    }
  }

  ghost function ClaimTable<S, R>(rows: Table<S, R>, now: nat): Table<S, R> {
    match NextId(rows, now)
    case None => rows
    case Some(id) => if id in rows then rows[id := ClaimRow(rows[id], now)] else rows
  }

  // ----- Which row of a set is latest -----

  /** `ORDER BY created_at DESC, id ASC`. */
  predicate Newer<S, R>(rows: Table<S, R>, a: nat, b: nat) {
    a in rows && b in rows
    && (rows[a].createdAt > rows[b].createdAt || (rows[a].createdAt == rows[b].createdAt && a < b))
  }

  predicate IsLatest<S, R>(rows: Table<S, R>, ids: set<nat>, id: nat) {
    id in ids && id in rows && forall other <- ids :: other != id ==> Newer(rows, id, other)
  }

  ghost function Latest<S, R>(rows: Table<S, R>, ids: set<nat>): Option<nat> {
    if exists id: nat :: IsLatest(rows, ids, id) then
      var id: nat :| IsLatest(rows, ids, id);
      Some(id)
    else None
  }

  lemma {:induction false} NewestIn<S, R>(rows: Table<S, R>, ids: set<nat>) returns (id: nat)
    requires ids <= rows.Keys && ids != {}
    ensures IsLatest(rows, ids, id)
    decreases |ids|
  {
    id :| id in ids;
    var rest := ids - {id};
    if rest != {} {
      var best := NewestIn(rows, rest);
      if Newer(rows, best, id) {
        id := best;
      }
      forall other <- ids | other != id ensures Newer(rows, id, other) {
        assert other == best || Newer(rows, best, other) || other !in rest;
      }
    }
  }

  /** Some job of the set is latest unless the set is empty, and only one is. */
  lemma {:induction false} LatestIsNewest<S, R>(rows: Table<S, R>, ids: set<nat>)
    requires ids <= rows.Keys
    ensures Latest(rows, ids).None? <==> ids == {}
    ensures forall id: nat :: Latest(rows, ids) == Some(id) <==> IsLatest(rows, ids, id)
  {
    if ids != {} {
      var id := NewestIn(rows, ids);
      assert IsLatest(rows, ids, id);
    }
    forall id: nat | IsLatest(rows, ids, id) ensures Latest(rows, ids) == Some(id) {
      var other := Latest(rows, ids).value;
      assert IsLatest(rows, ids, other);
      assert other != id ==> Newer(rows, id, other) && Newer(rows, other, id);
    }
  }

  // ----- The table as the repositories update it -----

  class JobTable<S(==), R(==)> {
    var rows: map<nat, Job<S, R>>

    constructor ()
      ensures rows == map[]
    {
      rows := map[];
    }

    method Create(id: nat, subject: S, now: nat)
      requires id !in rows
      modifies this
      ensures rows == old(rows)[id := NewJob(subject, now)]
    {
      rows := rows[id := Job(subject, now, Queued, None, None, 0, None)];
    }

    /** `find_latest_for_document` and `find_active_for_document`, given the rows they filter for. */
    method FindLatest(ids: set<nat>) returns (latest: Option<nat>)
      requires ids <= rows.Keys
      ensures latest == Latest(rows, ids)
    {
      LatestIsNewest(rows, ids);
      if ids == {} {
        return None;
      }
      ghost var newest := NewestIn(rows, ids);
      var id :| id in ids && IsLatest(rows, ids, id);
      return Some(id);
    }

    method Remove(ids: set<nat>)
      modifies this
      ensures rows == old(rows) - ids
    {
      rows := rows - ids;
    }

    /** Claims the oldest runnable row in place; the caller reads its new status off the row. */
    method ClaimNext(now: nat) returns (claimed: Option<nat>)
      modifies this
      ensures claimed == NextId(old(rows), now)
      ensures rows == ClaimTable(old(rows), now)
      ensures claimed.Some? ==> claimed.value in rows && claimed.value in old(rows)
    {
      NextIdIsOldest(rows, now);
      if !AnyRunnable(rows, now) {
        return None;
      }
      var id :| id in rows && IsNext(rows, now, id);
      var job := rows[id];
      job := job.(attempts := job.attempts + 1);
      if job.attempts > MAX_ATTEMPTS {
        job := job.(status := Failed);
        job := job.(result := None);
        job := job.(error := Some("max_attempts_exceeded"));
        job := job.(lease := None);
      } else {
        job := job.(status := Running);
        job := job.(lease := Some(now + LEASE_SECONDS));
      }
      rows := rows[id := job];
      return Some(id);
    }

    method MarkCompleted(id: nat, result: R)
      requires id in rows
      modifies this
      ensures rows == old(rows)[id := CompletedRow(old(rows)[id], result)]
    {
      var job := rows[id];
      job := job.(status := Completed);
      job := job.(result := Some(result));
      job := job.(error := None);
      job := job.(lease := None);
      rows := rows[id := job];
    }

    method MarkFailed(id: nat, error: string)
      requires id in rows
      modifies this
      ensures rows == old(rows)[id := FailedRow(old(rows)[id], error)]
    {
      var job := rows[id];
      job := job.(status := Failed);
      job := job.(result := None);
      job := job.(error := Some(if |error| <= MAX_ERROR_CHARS then error else error[..MAX_ERROR_CHARS]));
      job := job.(lease := None);
      rows := rows[id := job];
    }
  }
}
