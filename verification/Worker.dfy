/** One worker process alone with the three job tables (app/worker.py and the run_next_*_job handlers). */
module Worker {
  import opened Wrappers
  import opened Jobs
  import opened Lease
  import opened Scheduler

  /** How the handler's own work ends: with a result, or with a failure that becomes data on the row. */
  datatype Outcome<R> = Done(result: R) | Broken(error: string)

  function Settle<S, R>(j: Job<S, R>, outcome: Outcome<R>): Job<S, R> {
    match outcome
    case Done(result) => CompletedRow(j, result)
    case Broken(error) => FailedRow(j, error)
  }

  /** The table after one handler call: the oldest runnable row is settled, or failed if it was past the cap. */
  ghost function Processed<S, R>(rows: Table<S, R>, now: nat, outcome: Outcome<R>): Table<S, R> {
    var next := NextId(rows, now);
    if next.None? || next.value !in rows then rows
    else
      var row := ClaimRow(rows[next.value], now);
      rows[next.value := if row.status == Failed then row else Settle(row, outcome)]
  }

  /**
   * A handler call ends the oldest runnable job and no other: with the outcome's result or error, or as failed when it
   * was past the cap.
   */
  lemma {:induction false} ProcessedEndsOldest<S, R>(rows: Table<S, R>, now: nat, outcome: Outcome<R>, id: nat)
    requires IsNext(rows, now, id)
    ensures var after := Processed(rows, now, outcome);
            && after.Keys == rows.Keys && (forall other <- rows :: other != id ==> after[other] == rows[other])
            && after[id].subject == rows[id].subject && after[id].attempts == rows[id].attempts + 1
            && if rows[id].attempts >= MAX_ATTEMPTS then after[id].status == Failed
               else if outcome.Done? then
                 after[id].status == Completed && after[id].result == Some(outcome.result)
               else
                 after[id].status == Failed && after[id].error.Some? && after[id].error.value <= outcome.error
  {
    NextIdIsOldest(rows, now);
  }

  method RunNext<S, R>(table: JobTable<S, R>, now: nat, outcome: Outcome<R>) returns (ran: bool)
    modifies table
    ensures table.rows == Processed(old(table.rows), now, outcome)
    ensures ran == AnyRunnable(old(table.rows), now)
  {
    NextIdIsOldest(table.rows, now);
    var claimed := table.ClaimNext(now);
    if claimed.None? {
      return false;
    }
    var id := claimed.value;
    if table.rows[id].status == Failed {
      return true;
    }
    match outcome {
      case Done(result) => table.MarkCompleted(id, result);
      case Broken(error) => table.MarkFailed(id, error);
    }
    return true;
  }

  // ----- One pass -----

  ghost function Snapshot<S, R>(queues: seq<JobTable<S, R>>): (tables: seq<Table<S, R>>)
    reads queues
    ensures |tables| == |queues|
    ensures forall q :: 0 <= q < |queues| ==> tables[q] == queues[q].rows
  {
    if queues == [] then [] else Snapshot(queues[..|queues| - 1]) + [queues[|queues| - 1].rows]
  }

  /** The first queue at or after `offset`, counted from `first`, that has runnable work is processed; no other. */
  ghost function PassFrom<S, R>(
      tables: seq<Table<S, R>>, first: nat, offset: nat, now: nat, outcome: Outcome<R>): seq<Table<S, R>>
    requires |tables| == QUEUE_COUNT
    decreases QUEUE_COUNT - offset
  {
    if offset >= QUEUE_COUNT then tables
    else
      var q := (first + offset) % QUEUE_COUNT;
      if AnyRunnable(tables[q], now) then tables[q := Processed(tables[q], now, outcome)]
      else PassFrom(tables, first, offset + 1, now, outcome)
  }

  ghost predicate HasWork<S, R>(tables: seq<Table<S, R>>, now: nat)
    requires |tables| == QUEUE_COUNT
  {
    exists q :: 0 <= q < QUEUE_COUNT && AnyRunnable(tables[q], now)
  }

  ghost predicate IdleAt<S, R>(tables: seq<Table<S, R>>, first: nat, now: nat, offset: nat)
    requires |tables| == QUEUE_COUNT
  {
    !AnyRunnable(tables[(first + offset) % QUEUE_COUNT], now)
  }

  ghost predicate IdleUpTo<S, R>(tables: seq<Table<S, R>>, first: nat, now: nat, offset: nat)
    requires |tables| == QUEUE_COUNT
  {
    forall o: nat :: o < offset ==> IdleAt(tables, first, now, o)
  }

  /** One step of the pass: either this queue is processed and the pass is over, or nothing changes. */
  lemma {:induction false} PassStep<S, R>(
      tables: seq<Table<S, R>>, first: nat, offset: nat, now: nat, outcome: Outcome<R>)
    requires |tables| == QUEUE_COUNT && offset < QUEUE_COUNT && IdleUpTo(tables, first, now, offset)
    ensures var q := (first + offset) % QUEUE_COUNT;
            var tried := tables[q := Processed(tables[q], now, outcome)];
            if AnyRunnable(tables[q], now)
            then tried == PassFrom(tables, first, offset, now, outcome) && HasWork(tables, now)
            else && tried == tables && IdleUpTo(tables, first, now, offset + 1)
                 && PassFrom(tables, first, offset, now, outcome) == PassFrom(tables, first, offset + 1, now, outcome)
  {
    NextIdIsOldest(tables[(first + offset) % QUEUE_COUNT], now);
  }

  /** Three consecutive offsets visit all three queues. */
  lemma {:induction false} AllIdle<S, R>(tables: seq<Table<S, R>>, first: nat, now: nat)
    requires |tables| == QUEUE_COUNT && first < QUEUE_COUNT
    requires IdleUpTo(tables, first, now, QUEUE_COUNT)
    ensures !HasWork(tables, now)
  {
    forall q | 0 <= q < QUEUE_COUNT ensures !AnyRunnable(tables[q], now) {
      var o: nat := (q + QUEUE_COUNT - first) % QUEUE_COUNT;
      assert (first + o) % QUEUE_COUNT == q;
      assert IdleAt(tables, first, now, o);
    }
  }

  ghost predicate Apart<S, R>(queues: seq<JobTable<S, R>>) {
    forall p, q :: 0 <= p < q < |queues| ==> queues[p] != queues[q]
  }

  method TryQueue<S, R>(queues: seq<JobTable<S, R>>, q: nat, now: nat, outcome: Outcome<R>) returns (worked: bool)
    requires q < |queues| && Apart(queues)
    modifies queues
    ensures Snapshot(queues) == old(Snapshot(queues))[q := Processed(old(Snapshot(queues))[q], now, outcome)]
    ensures worked == AnyRunnable(old(Snapshot(queues))[q], now)
  {
    ghost var before := Snapshot(queues);
    worked := RunNext(queues[q], now, outcome);
  }

  method RunNextJob<S, R>(queues: seq<JobTable<S, R>>, first: nat, now: nat, outcome: Outcome<R>) returns (ran: bool)
    requires |queues| == QUEUE_COUNT && Apart(queues) && first < QUEUE_COUNT
    modifies queues
    ensures Snapshot(queues) == PassFrom(old(Snapshot(queues)), first, 0, now, outcome)
    ensures ran <==> HasWork(old(Snapshot(queues)), now)
  {
    ghost var before := Snapshot(queues);
    for offset := 0 to QUEUE_COUNT
      invariant Snapshot(queues) == before
      invariant IdleUpTo(before, first, now, offset)
      invariant PassFrom(before, first, 0, now, outcome) == PassFrom(before, first, offset, now, outcome)
    {
      var q := (first + offset) % QUEUE_COUNT;
      PassStep(before, first, offset, now, outcome);
      var worked := TryQueue(queues, q, now, outcome);
      if worked {
        return true;
      }
    }
    AllIdle(before, first, now);
    return false;
  }

  // ----- The main loop drains its work -----

  function RunnableIds<S, R>(rows: Table<S, R>, now: nat): set<nat> {
    set id <- rows | Runnable(rows[id], now)
  }

  function RunnableCount<S, R>(tables: seq<Table<S, R>>, now: nat): nat
    requires |tables| == QUEUE_COUNT
  {
    |RunnableIds(tables[0], now)| + |RunnableIds(tables[1], now)| + |RunnableIds(tables[2], now)|
  }

  /** No lease lapses between `now` and the times in `clock`. */
  ghost predicate Steady<S, R>(rows: Table<S, R>, now: nat, clock: seq<nat>) {
    forall id <- rows, t <- clock :: Runnable(rows[id], t) == Runnable(rows[id], now)
  }

  ghost predicate AllSteady<S, R>(tables: seq<Table<S, R>>, now: nat, clock: seq<nat>)
    requires |tables| == QUEUE_COUNT
  {
    forall q :: 0 <= q < QUEUE_COUNT ==> Steady(tables[q], now, clock)
  }

  /** A handler call settles one runnable row for good. */
  lemma {:induction false} ProcessedSettlesOne<S, R>(
      rows: Table<S, R>, now: nat, clock: seq<nat>, t: nat, outcome: Outcome<R>)
    requires Steady(rows, now, clock) && t in clock && AnyRunnable(rows, t)
    ensures var after := Processed(rows, t, outcome);
            && Steady(after, now, clock)
            && |RunnableIds(after, now)| + 1 == |RunnableIds(rows, now)|
  {
    NextIdIsOldest(rows, t);
    var id := NextId(rows, t).value;
    assert IsNext(rows, t, id);
    assert Runnable(rows[id], t) && Runnable(rows[id], now);
    var after := Processed(rows, t, outcome);
    assert !Active(after[id]);
    assert RunnableIds(after, now) == RunnableIds(rows, now) - {id};
  }

  lemma {:induction false} PassSettlesOne<S, R>(
      tables: seq<Table<S, R>>, first: nat, offset: nat, now: nat, clock: seq<nat>, t: nat, outcome: Outcome<R>)
    requires |tables| == QUEUE_COUNT && AllSteady(tables, now, clock) && t in clock
    ensures var after := PassFrom(tables, first, offset, t, outcome);
            && |after| == QUEUE_COUNT && AllSteady(after, now, clock)
            && (after == tables || RunnableCount(after, now) + 1 == RunnableCount(tables, now))
    decreases QUEUE_COUNT - offset
  {
    if offset < QUEUE_COUNT {
      var q := (first + offset) % QUEUE_COUNT;
      if AnyRunnable(tables[q], t) {
        ProcessedSettlesOne(tables[q], now, clock, t, outcome);
      } else {
        PassSettlesOne(tables, first, offset + 1, now, clock, t, outcome);
      }
    }
  }

  lemma {:induction false} WorkIsCounted<S, R>(tables: seq<Table<S, R>>, now: nat, clock: seq<nat>, t: nat)
    requires |tables| == QUEUE_COUNT && AllSteady(tables, now, clock) && t in clock
    ensures HasWork(tables, t) <==> RunnableCount(tables, now) > 0
  {
    forall q | 0 <= q < QUEUE_COUNT ensures AnyRunnable(tables[q], t) <==> RunnableIds(tables[q], now) != {} {
      if AnyRunnable(tables[q], t) {
        var id :| id in tables[q] && Runnable(tables[q][id], t);
        assert id in RunnableIds(tables[q], now);
      }
      if RunnableIds(tables[q], now) != {} {
        var id :| id in RunnableIds(tables[q], now);
        assert Runnable(tables[q][id], t);
      }
    }
  }

  lemma {:induction false} PassCounts<S, R>(
      tables: seq<Table<S, R>>, first: nat, now: nat, clock: seq<nat>, t: nat, outcome: Outcome<R>)
    requires |tables| == QUEUE_COUNT && first < QUEUE_COUNT && AllSteady(tables, now, clock) && t in clock
    ensures HasWork(tables, t) <==> RunnableCount(tables, now) > 0
    ensures var after := PassFrom(tables, first, 0, t, outcome);
            && |after| == QUEUE_COUNT && AllSteady(after, now, clock)
            && RunnableCount(after, now) == RunnableCount(tables, now) - (if HasWork(tables, t) then 1 else 0)
  {
    WorkIsCounted(tables, now, clock, t);
    PassSettlesOne(tables, first, 0, now, clock, t, outcome);
    if IdleUpTo(tables, first, t, QUEUE_COUNT) {
      AllIdle(tables, first, t);
    } else {
      PassFindsWork(tables, first, 0, t, outcome);
    }
  }

  lemma {:induction false} PassFindsWork<S, R>(
      tables: seq<Table<S, R>>, first: nat, offset: nat, now: nat, outcome: Outcome<R>)
    requires |tables| == QUEUE_COUNT && first < QUEUE_COUNT
    requires exists o: nat :: offset <= o < QUEUE_COUNT && !IdleAt(tables, first, now, o)
    ensures PassFrom(tables, first, offset, now, outcome) != tables
    decreases QUEUE_COUNT - offset
  {
    var q := (first + offset) % QUEUE_COUNT;
    if AnyRunnable(tables[q], now) {
      NextIdIsOldest(tables[q], now);
      var id := NextId(tables[q], now).value;
      assert IsNext(tables[q], now, id);
      assert Processed(tables[q], now, outcome)[id].status != tables[q][id].status;
    } else {
      assert IdleAt(tables, first, now, offset);
      PassFindsWork(tables, first, offset + 1, now, outcome);
    }
  }

  /** The tables after `p` passes, one per clock reading; pass `i` begins at queue `i % 3`. */
  ghost function Rounds<S, R>(
      tables: seq<Table<S, R>>, clock: seq<nat>, outcomes: seq<Outcome<R>>, p: nat): (after: seq<Table<S, R>>)
    requires |tables| == QUEUE_COUNT && p <= |clock| == |outcomes|
    ensures |after| == QUEUE_COUNT
    decreases p
  {
    if p == 0 then tables
    else
      var before := Rounds(tables, clock, outcomes, p - 1);
      PassFrom(before, (p - 1) % QUEUE_COUNT, 0, clock[p - 1], outcomes[p - 1])
  }

  ghost predicate FindsWork<S, R>(tables: seq<Table<S, R>>, clock: seq<nat>, outcomes: seq<Outcome<R>>, p: nat)
    requires |tables| == QUEUE_COUNT && p < |clock| == |outcomes|
  {
    HasWork(Rounds(tables, clock, outcomes, p), clock[p])
  }

  method RunRound<S, R>(
      queues: seq<JobTable<S, R>>, turn: nat, ghost start: seq<Table<S, R>>, clock: seq<nat>,
      outcomes: seq<Outcome<R>>, p: nat)
    requires |queues| == |start| == QUEUE_COUNT && Apart(queues)
    requires p < |clock| == |outcomes| && turn == p % QUEUE_COUNT
    requires Snapshot(queues) == Rounds(start, clock, outcomes, p)
    modifies queues
    ensures Snapshot(queues) == Rounds(start, clock, outcomes, p + 1)
  {
    var ran := RunNextJob(queues, turn, clock[p], outcomes[p]);
  }

  lemma {:induction false} NextTurn(p: nat)
    ensures (p % QUEUE_COUNT + 1) % QUEUE_COUNT == (p + 1) % QUEUE_COUNT
  {
  }

  /** The main loop, one pass per clock reading: `turn` advances after every pass, with or without work. */
  method RunPasses<S, R>(queues: seq<JobTable<S, R>>, clock: seq<nat>, outcomes: seq<Outcome<R>>)
    requires |queues| == QUEUE_COUNT && Apart(queues) && |clock| == |outcomes|
    modifies queues
    ensures Snapshot(queues) == Rounds(old(Snapshot(queues)), clock, outcomes, |clock|)
  {
    var turn := 0;
    ghost var start := Snapshot(queues);
    for p := 0 to |clock|
      invariant turn == p % QUEUE_COUNT
      invariant Snapshot(queues) == Rounds(start, clock, outcomes, p)
    {
      RunRound(queues, turn, start, clock, outcomes, p);
      NextTurn(p);
      turn := (turn + 1) % QUEUE_COUNT;
    }
  }

  lemma {:induction false} RoundsSettle<S, R>(
      tables: seq<Table<S, R>>, now: nat, clock: seq<nat>, outcomes: seq<Outcome<R>>, p: nat)
    requires |tables| == QUEUE_COUNT && p <= |clock| == |outcomes| && AllSteady(tables, now, clock)
    ensures var after, total := Rounds(tables, clock, outcomes, p), RunnableCount(tables, now);
            && AllSteady(after, now, clock)
            && RunnableCount(after, now) == if p <= total then total - p else 0
  {
    if p > 0 {
      RoundsSettle(tables, now, clock, outcomes, p - 1);
      PassCounts(Rounds(tables, clock, outcomes, p - 1), (p - 1) % QUEUE_COUNT, now, clock, clock[p - 1],
          outcomes[p - 1]);
    }
  }

  /** A lone worker that meets no lapsing lease settles N runnable jobs in exactly its first N passes, then idles. */
  lemma {:induction false} LoneWorkerDrains<S, R>(
      tables: seq<Table<S, R>>, now: nat, clock: seq<nat>, outcomes: seq<Outcome<R>>, p: nat)
    requires |tables| == QUEUE_COUNT && p < |clock| == |outcomes| && AllSteady(tables, now, clock)
    ensures FindsWork(tables, clock, outcomes, p) <==> p < RunnableCount(tables, now)
    ensures |clock| >= RunnableCount(tables, now) ==> !HasWork(Rounds(tables, clock, outcomes, |clock|), clock[p])
  {
    RoundsSettle(tables, now, clock, outcomes, p);
    WorkIsCounted(Rounds(tables, clock, outcomes, p), now, clock, clock[p]);
    RoundsSettle(tables, now, clock, outcomes, |clock|);
    WorkIsCounted(Rounds(tables, clock, outcomes, |clock|), now, clock, clock[p]);
  }

  // ----- A backlog in one queue does not starve the others -----

  function Backlogged<S, R>(tables: seq<Table<S, R>>, now: nat, q: nat): nat
    requires |tables| == QUEUE_COUNT && q < QUEUE_COUNT
  {
    |RunnableIds(tables[q], now)|
  }

  lemma {:induction false} IdleHoldsNone<S, R>(rows: Table<S, R>, now: nat, clock: seq<nat>, t: nat)
    requires Steady(rows, now, clock) && t in clock
    ensures RunnableIds(rows, now) != {} ==> AnyRunnable(rows, t)
  {
    if id :| id in RunnableIds(rows, now) {
      assert Runnable(rows[id], t);
    }
  }

  /** No pass adds work to a queue, and a pass that begins at a queue with work takes one job of it. */
  lemma {:induction false} PassServes<S, R>(
      tables: seq<Table<S, R>>, first: nat, offset: nat, now: nat, clock: seq<nat>, t: nat, outcome: Outcome<R>,
      q: nat)
    requires |tables| == QUEUE_COUNT && first < QUEUE_COUNT && q < QUEUE_COUNT
    requires AllSteady(tables, now, clock) && t in clock
    ensures var after := PassFrom(tables, first, offset, t, outcome);
            && |after| == QUEUE_COUNT && Backlogged(after, now, q) <= Backlogged(tables, now, q)
            && (q == first && offset == 0 && Backlogged(tables, now, q) > 0 ==>
                  Backlogged(after, now, q) + 1 == Backlogged(tables, now, q))
    decreases QUEUE_COUNT - offset
  {
    if offset < QUEUE_COUNT {
      var tried := (first + offset) % QUEUE_COUNT;
      IdleHoldsNone(tables[tried], now, clock, t);
      if AnyRunnable(tables[tried], t) {
        ProcessedSettlesOne(tables[tried], now, clock, t, outcome);
      } else {
        PassServes(tables, first, offset + 1, now, clock, t, outcome, q);
      }
    }
  }

  /** What queue `q` holds after `p` passes. */
  ghost function LeftAfter<S, R>(
      tables: seq<Table<S, R>>, now: nat, clock: seq<nat>, outcomes: seq<Outcome<R>>, p: nat, q: nat): nat
    requires |tables| == QUEUE_COUNT && p <= |clock| == |outcomes| && q < QUEUE_COUNT
  {
    Backlogged(Rounds(tables, clock, outcomes, p), now, q)
  }

  lemma {:induction false} RoundServes<S, R>(
      tables: seq<Table<S, R>>, now: nat, clock: seq<nat>, outcomes: seq<Outcome<R>>, p: nat, q: nat)
    requires |tables| == QUEUE_COUNT && p < |clock| == |outcomes| && q < QUEUE_COUNT && AllSteady(tables, now, clock)
    ensures var was, left := LeftAfter(tables, now, clock, outcomes, p, q),
                             LeftAfter(tables, now, clock, outcomes, p + 1, q);
            left <= was && (p % QUEUE_COUNT == q && was > 0 ==> left + 1 == was)
  {
    RoundsSettle(tables, now, clock, outcomes, p);
    PassServes(Rounds(tables, clock, outcomes, p), p % QUEUE_COUNT, 0, now, clock, clock[p], outcomes[p], q);
  }

  lemma {:induction false} OneOfThree(p: nat, q: nat)
    requires q < QUEUE_COUNT
    ensures p % QUEUE_COUNT == q || (p + 1) % QUEUE_COUNT == q || (p + 2) % QUEUE_COUNT == q
  {
  }

  /** Any three consecutive passes take at least one job from every queue that has one, however long the others are. */
  lemma {:induction false} RotationServesAll<S, R>(
      tables: seq<Table<S, R>>, now: nat, clock: seq<nat>, outcomes: seq<Outcome<R>>, p: nat, q: nat)
    requires |tables| == QUEUE_COUNT && p + 3 <= |clock| == |outcomes| && q < QUEUE_COUNT
    requires AllSteady(tables, now, clock)
    ensures var was, left := LeftAfter(tables, now, clock, outcomes, p, q),
                             LeftAfter(tables, now, clock, outcomes, p + 3, q);
            left < was || was == left == 0
  {
    OneOfThree(p, q);
    RoundServes(tables, now, clock, outcomes, p, q);
    RoundServes(tables, now, clock, outcomes, p + 1, q);
    RoundServes(tables, now, clock, outcomes, p + 2, q);
  }

  /** So a queue of `n` runnable jobs is empty after `3 * n` passes, whatever the other queues hold. */
  lemma {:induction false} QueueDrainsOnItsOwn<S, R>(
      tables: seq<Table<S, R>>, now: nat, clock: seq<nat>, outcomes: seq<Outcome<R>>, q: nat, n: nat)
    requires |tables| == QUEUE_COUNT && 3 * n <= |clock| == |outcomes| && q < QUEUE_COUNT
    requires AllSteady(tables, now, clock)
    ensures var left := LeftAfter(tables, now, clock, outcomes, 3 * n, q);
            left == 0 || left + n <= Backlogged(tables, now, q)
    decreases n
  {
    if n > 0 {
      QueueDrainsOnItsOwn(tables, now, clock, outcomes, q, n - 1);
      RotationServesAll(tables, now, clock, outcomes, 3 * (n - 1), q);
    }
  }
}
