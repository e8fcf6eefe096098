/** The worker's rotation over the three queues, among other workers (app/worker.py). */
module Scheduler {
  import opened Wrappers
  import opened Jobs
  import opened Lease

  const QUEUE_COUNT: nat := 3

  /**
   * One worker process among others: `turn` rotates once per pass, `offset` is the next queue to try within the
   * pass. Each queue keeps its own clock, which only allows more interleavings than one clock would.
   */
  datatype System<S, R> = System(queues: seq<State<S, R>>, me: nat, turn: nat, offset: nat)

  /** `Try` is this worker's next claim attempt; `Other` is anything else that happens to a queue. */
  datatype Move<S, R> = Try | Other(queue: nat, event: Event<S, R>)

  ghost predicate Valid<S, R>(c: System<S, R>) {
    && |c.queues| == QUEUE_COUNT && c.turn < QUEUE_COUNT && c.offset < QUEUE_COUNT
    && forall q :: 0 <= q < QUEUE_COUNT ==> Sound(c.queues[q])
  }

  function Tried<S, R>(c: System<S, R>): nat {
    (c.turn + c.offset) % QUEUE_COUNT
  }

  /** The worker tries the next queue only when its last job is finished; it neither crashes nor claims otherwise. */
  predicate CanStep<S, R>(c: System<S, R>, step: Move<S, R>)
    requires |c.queues| == QUEUE_COUNT
  {
    match step
    case Try => forall q :: 0 <= q < QUEUE_COUNT ==> c.me !in c.queues[q].holds
    case Other(q, e) => q < QUEUE_COUNT && Enabled(c.queues[q], e) && e != Claim(c.me) && e != Crash(c.me)
  }

  /** A claim ends the pass, and so does the third queue without work; either way the rotation advances. */
  ghost function TryNext<S, R>(c: System<S, R>): System<S, R>
    requires Valid(c)
  {
    var q := Tried(c);
    var tried := c.(queues := c.queues[q := Claimed(c.queues[q], c.me)]);
    if NextId(c.queues[q].rows, c.queues[q].now).Some? || c.offset + 1 == QUEUE_COUNT
    then tried.(turn := (c.turn + 1) % QUEUE_COUNT, offset := 0)
    else tried.(offset := c.offset + 1)
  }

  ghost function Next<S, R>(c: System<S, R>, step: Move<S, R>): System<S, R>
    requires Valid(c) && CanStep(c, step)
  {
    match step
    case Try => TryNext(c)
    case Other(q, e) => c.(queues := c.queues[q := Apply(c.queues[q], e)])
  }

  lemma {:induction false} NextIsValid<S, R>(c: System<S, R>, step: Move<S, R>)
    requires Valid(c) && CanStep(c, step)
    ensures Valid(Next(c, step))
  {
    match step
    case Try => ApplyIsSound(c.queues[Tried(c)], Claim(c.me));
    case Other(q, e) => ApplyIsSound(c.queues[q], e);
  }

  ghost predicate IsSchedule<S, R>(c: System<S, R>, steps: seq<Move<S, R>>)
    requires Valid(c)
    decreases |steps|
  {
    steps == [] || (CanStep(c, steps[0]) && (NextIsValid(c, steps[0]); IsSchedule(Next(c, steps[0]), steps[1..])))
  }

  ghost function After<S, R>(c: System<S, R>, steps: seq<Move<S, R>>): System<S, R>
    requires Valid(c) && IsSchedule(c, steps)
    decreases |steps|
  {
    if steps == [] then c
    else
      NextIsValid(c, steps[0]);
      After(Next(c, steps[0]), steps[1..])
  }

  predicate StartsPass<S, R>(c: System<S, R>, step: Move<S, R>) {
    step.Try? && c.offset == 0
  }

  /** Passes this worker starts along the schedule. */
  ghost function Passes<S, R>(c: System<S, R>, steps: seq<Move<S, R>>): nat
    requires Valid(c) && IsSchedule(c, steps)
    decreases |steps|
  {
    if steps == [] then 0
    else
      NextIsValid(c, steps[0]);
      var rest := Passes(Next(c, steps[0]), steps[1..]);
      if StartsPass(c, steps[0]) then rest + 1 else rest
  }

  // ----- Bounded wait -----

  /** Row `id` can be claimed, with `a` attempts behind it: it is new, or its last worker let the lease lapse. */
  predicate Waiting<S, R>(s: State<S, R>, id: nat, a: nat) {
    id in s.rows && Runnable(s.rows[id], s.now) && s.rows[id].attempts == a
  }

  /** It was claimed once more, or it is finished or deleted. */
  predicate Served<S, R>(s: State<S, R>, id: nat, a: nat) {
    id in s.rows ==> s.rows[id].attempts > a || !Active(s.rows[id])
  }

  /** Rows enqueued into `q` along the way sort after row `id`. */
  predicate SortsAfter<S, R>(c: System<S, R>, step: Move<S, R>, q: nat, id: nat)
    requires |c.queues| == QUEUE_COUNT && q < QUEUE_COUNT
  {
    step.Other? && step.queue == q && step.event.Enqueue? && id in c.queues[q].rows ==>
      var created := c.queues[q].rows[id].createdAt;
      created < c.queues[q].now || (created == c.queues[q].now && id < step.event.id)
  }

  ghost predicate LaterOnly<S, R>(c: System<S, R>, steps: seq<Move<S, R>>, q: nat, id: nat)
    requires Valid(c) && IsSchedule(c, steps) && q < QUEUE_COUNT
    decreases |steps|
  {
    steps == [] ||
    (SortsAfter(c, steps[0], q, id) && (NextIsValid(c, steps[0]); LaterOnly(Next(c, steps[0]), steps[1..], q, id)))
  }

  function OlderTokens<S, R>(rows: Table<S, R>, id: nat): set<(nat, nat)> {
    set t <- Tokens(rows) | Older(rows, t.0, id)
  }

  /** Unfinished rows older than `id`. */
  function Ahead<S, R>(rows: Table<S, R>, id: nat): set<nat> {
    set other <- rows | Active(rows[other]) && Older(rows, other, id)
  }

  /** Pass starts before the next pass that begins at `q`. */
  function Distance<S, R>(c: System<S, R>, q: nat): nat
    requires q < QUEUE_COUNT && c.turn < QUEUE_COUNT
  {
    var turn := if c.offset == 0 then c.turn else (c.turn + 1) % QUEUE_COUNT;
    (q + QUEUE_COUNT - turn) % QUEUE_COUNT
  }

  ghost function Backlog<S, R>(c: System<S, R>, q: nat, id: nat): nat
    requires Valid(c) && q < QUEUE_COUNT
  {
    QUEUE_COUNT * |OlderTokens(c.queues[q].rows, id)| + Distance(c, q)
  }

  lemma {:induction false} EventKeepsOlderTokens<S, R>(s: State<S, R>, e: Event<S, R>, id: nat)
    requires Sound(s) && Enabled(s, e) && id in s.rows && id in Apply(s, e).rows
    requires e.Enqueue? ==> s.rows[id].createdAt < s.now || (s.rows[id].createdAt == s.now && id < e.id)
    ensures OlderTokens(Apply(s, e).rows, id) <= OlderTokens(s.rows, id)
  {
    if e.Claim? {
      ClaimUsesOneToken(s, e.worker);
      NextIdIsOldest(s.rows, s.now);
    } else {
      OnlyEnqueuesAddTokens(s, e);
    }
    assert JobOk(s, id) && (e.Enqueue? ==> JobOk(s, e.id));
    forall t | t in OlderTokens(Apply(s, e).rows, id) ensures t in OlderTokens(s.rows, id) {
      assert t in Tokens(Apply(s, e).rows);
    }
  }

  /** While the row waits, a claim in its queue takes an older row and uses up one of its tokens. */
  lemma {:induction false} ClaimAheadUsesToken<S, R>(s: State<S, R>, w: nat, id: nat)
    requires Sound(s) && w !in s.holds
    requires id in s.rows && Runnable(s.rows[id], s.now)
    ensures NextId(s.rows, s.now).Some?
    ensures var t := Claimed(s, w);
            && id in t.rows
            && (t.rows[id].attempts == s.rows[id].attempts ==>
                  |OlderTokens(t.rows, id)| + 1 <= |OlderTokens(s.rows, id)|)
  {
    NextIdIsOldest(s.rows, s.now);
    ClaimUsesOneToken(s, w);
    var next := NextId(s.rows, s.now).value;
    var t := Claimed(s, w);
    var token := (next, s.rows[next].attempts);
    assert JobOk(s, id);
    if t.rows[id].attempts == s.rows[id].attempts {
      assert next != id && Older(s.rows, next, id);
      assert token in OlderTokens(s.rows, id);
      assert OlderTokens(t.rows, id) <= OlderTokens(s.rows, id) - {token};
      SubsetSize(OlderTokens(t.rows, id), OlderTokens(s.rows, id) - {token});
    }
  }

  /** An attempt at another queue ends the pass or moves on, and a pass that starts comes one closer to `q`. */
  lemma {:induction false} TryComesCloser<S, R>(c: System<S, R>, q: nat)
    requires Valid(c) && q < QUEUE_COUNT && Tried(c) != q
    ensures Distance(TryNext(c), q) + (if c.offset == 0 then 1 else 0) <= Distance(c, q)
  {
  }

  /** An attempt at `q` itself uses up an older token, which outweighs any distance. */
  lemma {:induction false} TryUsesToken<S, R>(c: System<S, R>, q: nat, id: nat, a: nat)
    requires Valid(c) && CanStep(c, Try) && q < QUEUE_COUNT && Tried(c) == q && Valid(TryNext(c))
    requires Waiting(c.queues[q], id, a) && Waiting(TryNext(c).queues[q], id, a)
    ensures Backlog(TryNext(c), q, id) + 1 <= Backlog(c, q, id)
  {
    ClaimAheadUsesToken(c.queues[q], c.me, id);
    var left, were := |OlderTokens(TryNext(c).queues[q].rows, id)|, |OlderTokens(c.queues[q].rows, id)|;
    assert TryNext(c).queues[q] == Claimed(c.queues[q], c.me) && left + 1 <= were;
    assert Distance(TryNext(c), q) < QUEUE_COUNT;
  }

  lemma {:induction false} StepPaysBacklog<S, R>(c: System<S, R>, step: Move<S, R>, q: nat, id: nat, a: nat)
    requires Valid(c) && CanStep(c, step) && q < QUEUE_COUNT && SortsAfter(c, step, q, id)
    requires Waiting(c.queues[q], id, a) && Valid(Next(c, step)) && Waiting(Next(c, step).queues[q], id, a)
    ensures Backlog(Next(c, step), q, id) + (if StartsPass(c, step) then 1 else 0) <= Backlog(c, q, id)
  {
    var d := Next(c, step);
    match step
    case Other(p, e) =>
      if p == q {
        EventKeepsOlderTokens(c.queues[q], e, id);
        SubsetSize(OlderTokens(d.queues[q].rows, id), OlderTokens(c.queues[q].rows, id));
      }
    case Try =>
      if Tried(c) == q {
        TryUsesToken(c, q, id, a);
      } else {
        TryComesCloser(c, q);
      }
  }

  lemma {:induction false} EventWaitsOrServes<S, R>(s: State<S, R>, e: Event<S, R>, id: nat, a: nat)
    requires Enabled(s, e) && id in s.used
    ensures id in Apply(s, e).used
    ensures Waiting(s, id, a) ==> Waiting(Apply(s, e), id, a) || Served(Apply(s, e), id, a)
    ensures Served(s, id, a) ==> Served(Apply(s, e), id, a)
  {
    NextIdIsOldest(s.rows, s.now);
  }

  /** A waiting row goes on waiting until it is served, and what is served stays so. */
  lemma {:induction false} WaitsOrServed<S, R>(c: System<S, R>, step: Move<S, R>, q: nat, id: nat, a: nat)
    requires Valid(c) && CanStep(c, step) && Valid(Next(c, step)) && q < QUEUE_COUNT && id in c.queues[q].used
    ensures id in Next(c, step).queues[q].used
    ensures Waiting(c.queues[q], id, a) ==>
              Waiting(Next(c, step).queues[q], id, a) || Served(Next(c, step).queues[q], id, a)
    ensures Served(c.queues[q], id, a) ==> Served(Next(c, step).queues[q], id, a)
  {
    match step
    case Try => EventWaitsOrServes(c.queues[q], Claim(c.me), id, a);
    case Other(p, e) => if p == q {
      EventWaitsOrServes(c.queues[q], e, id, a);
    }
  }

  lemma {:induction false} ServedStaysServed<S, R>(c: System<S, R>, steps: seq<Move<S, R>>, q: nat, id: nat, a: nat)
    requires Valid(c) && IsSchedule(c, steps) && q < QUEUE_COUNT
    requires id in c.queues[q].used && Served(c.queues[q], id, a)
    ensures Valid(After(c, steps)) && Served(After(c, steps).queues[q], id, a)
    decreases |steps|
  {
    if steps != [] {
      NextIsValid(c, steps[0]);
      WaitsOrServed(c, steps[0], q, id, a);
      ServedStaysServed(Next(c, steps[0]), steps[1..], q, id, a);
    }
  }

  /** As long as the row is not served, the passes started so far fit into its backlog. */
  lemma {:induction false} WaitingPaysBacklog<S, R>(c: System<S, R>, steps: seq<Move<S, R>>, q: nat, id: nat, a: nat)
    requires Valid(c) && IsSchedule(c, steps) && q < QUEUE_COUNT && LaterOnly(c, steps, q, id)
    requires Waiting(c.queues[q], id, a)
    ensures Valid(After(c, steps))
    ensures Served(After(c, steps).queues[q], id, a) || Passes(c, steps) <= Backlog(c, q, id)
    decreases |steps|
  {
    if steps != [] {
      var d := Next(c, steps[0]);
      NextIsValid(c, steps[0]);
      assert JobOk(c.queues[q], id);
      WaitsOrServed(c, steps[0], q, id, a);
      if Waiting(d.queues[q], id, a) {
        WaitingPaysBacklog(d, steps[1..], q, id, a);
        StepPaysBacklog(c, steps[0], q, id, a);
      } else {
        ServedStaysServed(d, steps[1..], q, id, a);
      }
    }
  }

  function TokensOf(ids: set<nat>): set<(nat, nat)> {
    set id <- ids, a: nat | a <= MAX_ATTEMPTS :: (id, a)
  }

  lemma {:induction false} TokensOfSize(ids: set<nat>)
    ensures |TokensOf(ids)| <= (MAX_ATTEMPTS + 1) * |ids|
  {
    if ids == {} {
      assert TokensOf(ids) == {};
    } else {
      var id :| id in ids;
      var rest := ids - {id};
      TokensOfSize(rest);
      SubsetSize(TokensOf(ids), TokensOf(rest) + FreshTokens(id));
      assert |TokensOf(rest) + FreshTokens(id)| <= |TokensOf(rest)| + |FreshTokens(id)|;
    }
  }

  /**
   * Whatever the other workers do, a runnable row with `n` unfinished rows ahead of it, new or left behind by a
   * crashed worker, has been claimed once more, finished or deleted by the time this worker has started
   * 3 * (4 * n + 1) passes.
   */
  lemma {:induction false} BoundedWait<S, R>(c: System<S, R>, steps: seq<Move<S, R>>, q: nat, id: nat, a: nat)
    requires Valid(c) && IsSchedule(c, steps) && q < QUEUE_COUNT && LaterOnly(c, steps, q, id)
    requires Waiting(c.queues[q], id, a)
    requires Passes(c, steps) >= QUEUE_COUNT * ((MAX_ATTEMPTS + 1) * |Ahead(c.queues[q].rows, id)| + 1)
    ensures Valid(After(c, steps)) && Served(After(c, steps).queues[q], id, a)
  {
    WaitingPaysBacklog(c, steps, q, id, a);
    var rows := c.queues[q].rows;
    var ids := Ahead(rows, id);
    TokensOfSize(ids);
    SubsetSize(OlderTokens(rows, id), TokensOf(ids));
  }
}
