/** Runs of one job table under any number of workers (app/repositories/job_claims.py, ADR-004). */
module Lease {
  import opened Wrappers
  import opened Jobs

  /** What a worker took away from a claim: the job, which attempt it is, and when its lease lapses. */
  datatype Hold = Hold(job: nat, attempt: nat, lapses: nat)

  /** `used` holds every id ever enqueued; `handouts` counts how often each job was handed out to run. */
  datatype State<S, R> =
    State(now: nat, rows: Table<S, R>, holds: map<nat, Hold>, used: set<nat>, handouts: multiset<nat>)

  datatype Event<S, R> =
    | Enqueue(id: nat, subject: S)
    | Claim(worker: nat)
    | Complete(worker: nat, result: R)
    | Fail(worker: nat, error: string)
    | Crash(worker: nat)
    | Tick(seconds: nat)
    | Remove(ids: set<nat>)

  function Start<S, R>(): State<S, R> {
    State(0, map[], map[], {}, multiset{})
  }

  predicate Finishing<S, R>(e: Event<S, R>) {
    e.Complete? || e.Fail?
  }

  /** Row ids are never drawn twice, and a worker claims only when it holds nothing. */
  predicate Enabled<S, R>(s: State<S, R>, e: Event<S, R>) {
    match e
    case Enqueue(id, _) => id !in s.used
    case Claim(w) => w !in s.holds
    case Complete(w, _) => w in s.holds
    case Fail(w, _) => w in s.holds
    case Crash(w) => w in s.holds
    case Tick(_) => true
    case Remove(_) => true
  }

  function FinishedRow<S, R>(j: Job<S, R>, e: Event<S, R>): Job<S, R>
    requires Finishing(e)
  {
    if e.Complete? then CompletedRow(j, e.result) else FailedRow(j, e.error)
  }

  /** The claim commits with the new row; a row claimed past the cap is not handed out. */
  ghost function Claimed<S, R>(s: State<S, R>, w: nat): State<S, R> {
    var next := NextId(s.rows, s.now);
    if next.None? || next.value !in s.rows then s
    else
      var id := next.value;
      var row := ClaimRow(s.rows[id], s.now);
      var rows := s.rows[id := row];
      if row.status == Running then
        s.(rows := rows, holds := s.holds[w := Hold(id, row.attempts, s.now + LEASE_SECONDS)],
           handouts := s.handouts + multiset{id})
      else s.(rows := rows)
  }

  /** The row is overwritten whatever has become of it: the code does not check that it is still the worker's. */
  ghost function Finished<S, R>(s: State<S, R>, e: Event<S, R>): State<S, R>
    requires Finishing(e) && e.worker in s.holds
  {
    var id := s.holds[e.worker].job;
    var released := s.(holds := s.holds - {e.worker});
    if id in s.rows then released.(rows := s.rows[id := FinishedRow(s.rows[id], e)]) else released
  }

  ghost function Apply<S, R>(s: State<S, R>, e: Event<S, R>): State<S, R>
    requires Enabled(s, e)
  {
    match e
    case Enqueue(id, subject) => s.(rows := s.rows[id := NewJob(subject, s.now)], used := s.used + {id})
    case Claim(w) => Claimed(s, w)
    case Complete(w, result) => Finished(s, e)
    case Fail(w, error) => Finished(s, e)
    case Crash(w) => s.(holds := s.holds - {w})
    case Tick(seconds) => s.(now := s.now + seconds)
    case Remove(ids) => s.(rows := s.rows - ids)
  }

  ghost predicate IsRun<S, R>(s: State<S, R>, events: seq<Event<S, R>>)
    decreases |events|
  {
    events == [] || (Enabled(s, events[0]) && IsRun(Apply(s, events[0]), events[1..]))
  }

  ghost function Final<S, R>(s: State<S, R>, events: seq<Event<S, R>>): State<S, R>
    requires IsRun(s, events)
    decreases |events|
  {
    if events == [] then s else Final(Apply(s, events[0]), events[1..])
  }

  // ----- What every run keeps -----

  predicate RowOk<S, R>(j: Job<S, R>) {
    && (j.status == Running <==> j.lease.Some?)
    && (j.status == Queued ==> j.attempts == 0)
    && (j.status == Running ==> 1 <= j.attempts <= MAX_ATTEMPTS)
    && (!Active(j) ==> 1 <= j.attempts <= MAX_ATTEMPTS + 1)
    && (j.result.Some? <==> j.status == Completed)
    && (j.error.Some? <==> j.status == Failed)
    && (j.error.Some? ==> |j.error.value| <= MAX_ERROR_CHARS)
  }

  function HandoutsFor<S, R>(j: Job<S, R>): nat {
    if j.attempts <= MAX_ATTEMPTS then j.attempts else MAX_ATTEMPTS
  }

  ghost predicate HoldOk<S, R>(s: State<S, R>, w: nat) {
    w in s.holds ==>
      var h := s.holds[w];
      && h.job in s.used
      && 1 <= h.attempt <= MAX_ATTEMPTS
      && (h.job in s.rows ==> h.attempt <= s.rows[h.job].attempts)
  }

  ghost predicate JobOk<S, R>(s: State<S, R>, id: nat) {
    && (id in s.rows ==> RowOk(s.rows[id]) && id in s.used && s.handouts[id] == HandoutsFor(s.rows[id]))
    && s.handouts[id] <= MAX_ATTEMPTS
    && (id !in s.used ==> s.handouts[id] == 0)
  }

  ghost predicate Sound<S, R>(s: State<S, R>) {
    && (forall id: nat :: JobOk(s, id))
    && (forall w: nat :: HoldOk(s, w))
  }

  lemma {:induction false} ApplyKeepsJobOk<S, R>(s: State<S, R>, e: Event<S, R>, id: nat)
    requires Enabled(s, e) && JobOk(s, id)
    requires Finishing(e) ==> HoldOk(s, e.worker)
    ensures JobOk(Apply(s, e), id)
  {
    NextIdIsOldest(s.rows, s.now);
  }

  lemma {:induction false} ApplyKeepsHoldOk<S, R>(s: State<S, R>, e: Event<S, R>, w: nat)
    requires Sound(s) && Enabled(s, e)
    ensures HoldOk(Apply(s, e), w)
  {
    assert HoldOk(s, w);
    if e.Claim? {
      NextIdIsOldest(s.rows, s.now);
      var next := NextId(s.rows, s.now);
      if next.Some? {
        assert JobOk(s, next.value);
      }
    }
  }

  lemma {:induction false} ApplyIsSound<S, R>(s: State<S, R>, e: Event<S, R>)
    requires Sound(s) && Enabled(s, e)
    ensures Sound(Apply(s, e))
  {
    var t := Apply(s, e);
    forall id: nat ensures JobOk(t, id) {
      assert JobOk(s, id);
      if Finishing(e) {
        assert HoldOk(s, e.worker);
      }
      ApplyKeepsJobOk(s, e, id);
    }
    forall w: nat ensures HoldOk(t, w) {
      ApplyKeepsHoldOk(s, e, w);
    }
  }

  /**
   * In every run, whoever crashes or finishes late: row states are well formed and no job runs more than three times.
   */
  lemma {:induction false} RunsAreSound<S, R>(s: State<S, R>, events: seq<Event<S, R>>)
    requires Sound(s) && IsRun(s, events)
    ensures Sound(Final(s, events))
    decreases |events|
  {
    if events != [] {
      ApplyIsSound(s, events[0]);
      RunsAreSound(Apply(s, events[0]), events[1..]);
    }
  }

  // ----- Whose row a finish meets -----

  /** While the row runs, the latest claim holds its lease and every older claim lapsed before that lease does. */
  ghost predicate HoldLeased<S, R>(s: State<S, R>, w: nat) {
    w in s.holds && s.holds[w].job in s.rows && s.rows[s.holds[w].job].status == Running ==>
      var h, row := s.holds[w], s.rows[s.holds[w].job];
      if h.attempt == row.attempts then row.lease == Some(h.lapses)
      else row.lease.Some? && h.lapses < row.lease.value
  }

  ghost predicate Leased<S, R>(s: State<S, R>) {
    Sound(s) && forall w: nat :: HoldLeased(s, w)
  }

  lemma {:induction false} ApplyIsLeased<S, R>(s: State<S, R>, e: Event<S, R>)
    requires Leased(s) && Enabled(s, e)
    ensures Leased(Apply(s, e))
  {
    ApplyIsSound(s, e);
    NextIdIsOldest(s.rows, s.now);
    forall w: nat ensures HoldLeased(Apply(s, e), w) {
      assert HoldLeased(s, w) && HoldOk(s, w);
      if w in s.holds {
        assert JobOk(s, s.holds[w].job);
      }
    }
  }

  /** Every run from the empty table, fenced or not, keeps the holds in step with the leases. */
  lemma {:induction false} RunsAreLeased<S, R>(s: State<S, R>, events: seq<Event<S, R>>)
    requires Leased(s) && IsRun(s, events)
    ensures Leased(Final(s, events))
    decreases |events|
  {
    if events != [] {
      ApplyIsLeased(s, events[0]);
      RunsAreLeased(Apply(s, events[0]), events[1..]);
    }
  }

  /** The worker's claim is the latest one of its job. */
  predicate HoldsCurrent<S, R>(s: State<S, R>, w: nat) {
    w in s.holds && s.holds[w].job in s.rows && s.holds[w].attempt == s.rows[s.holds[w].job].attempts
  }

  /** The row still runs under the very lease the worker was given. */
  predicate RunsUnder<S, R>(s: State<S, R>, w: nat) {
    w in s.holds && s.holds[w].job in s.rows
    && s.rows[s.holds[w].job].status == Running && s.rows[s.holds[w].job].lease == Some(s.holds[w].lapses)
  }

  /**
   * After any run, a worker's finish meets its own running row exactly when the row is still running and the worker's
   * claim is the latest one. Otherwise it overwrites a finished row or another worker's running one.
   */
  lemma {:induction false} FinishIsOwnExactly<S, R>(events: seq<Event<S, R>>, w: nat)
    requires IsRun(Start(), events)
    ensures var s := Final(Start(), events);
            w in s.holds && s.holds[w].job in s.rows ==>
              (RunsUnder(s, w) <==> HoldsCurrent(s, w) && s.rows[s.holds[w].job].status == Running)
  {
    var s: State<S, R> := Start();
    RunsAreLeased(s, events);
    assert HoldLeased(Final(s, events), w) && HoldOk(Final(s, events), w);
  }

  // ----- One live holder -----

  /** No lease lasts longer than the newest one of its job, and a job that was handed out is never queued again. */
  ghost predicate HoldTimed<S, R>(s: State<S, R>, w: nat) {
    w in s.holds ==>
      var h := s.holds[w];
      && h.lapses <= s.now + LEASE_SECONDS
      && (h.job in s.rows ==>
            && s.rows[h.job].status != Queued
            && (s.rows[h.job].lease.Some? ==> h.lapses <= s.rows[h.job].lease.value))
  }

  /** Of two holds of one job at least one has lapsed. */
  ghost predicate OneLive<S, R>(s: State<S, R>, w: nat, v: nat) {
    w in s.holds && v in s.holds && w != v && s.holds[w].job == s.holds[v].job ==>
      s.holds[w].lapses <= s.now || s.holds[v].lapses <= s.now
  }

  ghost predicate Exclusive<S, R>(s: State<S, R>) {
    && Sound(s)
    && (forall w: nat :: HoldTimed(s, w))
    && (forall w: nat, v: nat :: OneLive(s, w, v))
  }

  lemma {:induction false} ClaimKeepsHoldTimed<S, R>(s: State<S, R>, c: nat, w: nat)
    requires Exclusive(s) && c !in s.holds
    ensures HoldTimed(Claimed(s, c), w)
  {
    assert HoldTimed(s, w);
    NextIdIsOldest(s.rows, s.now);
  }

  /** A job is handed out only when its lease lapsed, and every earlier hold of it lapsed no later. */
  lemma {:induction false} ClaimKeepsOneLive<S, R>(s: State<S, R>, c: nat, w: nat, v: nat)
    requires Exclusive(s) && c !in s.holds
    ensures OneLive(Claimed(s, c), w, v)
  {
    assert OneLive(s, w, v);
    assert HoldTimed(s, w) && HoldTimed(s, v);
    NextIdIsOldest(s.rows, s.now);
    var next := NextId(s.rows, s.now);
    if next.Some? {
      assert JobOk(s, next.value);
    }
  }

  lemma {:induction false} ApplyIsExclusive<S, R>(s: State<S, R>, e: Event<S, R>)
    requires Exclusive(s) && Enabled(s, e)
    ensures Exclusive(Apply(s, e))
  {
    ApplyIsSound(s, e);
    var t := Apply(s, e);
    forall w: nat ensures HoldTimed(t, w) {
      assert HoldTimed(s, w) && HoldOk(s, w);
      if e.Claim? {
        ClaimKeepsHoldTimed(s, e.worker, w);
      }
    }
    forall w: nat, v: nat ensures OneLive(t, w, v) {
      assert OneLive(s, w, v);
      if e.Claim? {
        ClaimKeepsOneLive(s, e.worker, w, v);
      }
    }
  }

  lemma {:induction false} RunsAreExclusive<S, R>(s: State<S, R>, events: seq<Event<S, R>>)
    requires Exclusive(s) && IsRun(s, events)
    ensures Exclusive(Final(s, events))
    decreases |events|
  {
    if events != [] {
      ApplyIsExclusive(s, events[0]);
      RunsAreExclusive(Apply(s, events[0]), events[1..]);
    }
  }

  /** A worker within its lease. */
  predicate HoldsLive<S, R>(s: State<S, R>, w: nat) {
    w in s.holds && s.now < s.holds[w].lapses
  }

  /** In every run, late finishes and deleted jobs included, at most one worker within its lease holds a job. */
  lemma {:induction false} OneLiveHolder<S, R>(events: seq<Event<S, R>>, w: nat, v: nat)
    requires IsRun(Start(), events)
    ensures var s := Final(Start(), events);
            HoldsLive(s, w) && HoldsLive(s, v) && s.holds[w].job == s.holds[v].job ==> w == v
  {
    var s: State<S, R> := Start();
    RunsAreExclusive(s, events);
    assert OneLive(Final(s, events), w, v);
  }

  // ----- Fencing -----

  /** Each finish comes from the latest claimer of the job, or finds the row gone. */
  predicate FinishFenced<S, R>(s: State<S, R>, e: Event<S, R>) {
    Finishing(e) ==> HoldsCurrent(s, e.worker) || (e.worker in s.holds && s.holds[e.worker].job !in s.rows)
  }

  /** A worker finishes before its lease lapses, or never. */
  predicate FinishOnTime<S, R>(s: State<S, R>, e: Event<S, R>) {
    Finishing(e) && e.worker in s.holds ==> s.now < s.holds[e.worker].lapses
  }

  /**
   * A latest claim owns a running row under its own lease; an older claim lapsed before the row's present lease
   * began.
   */
  ghost predicate HoldFenced<S, R>(s: State<S, R>, w: nat) {
    w in s.holds && s.holds[w].job in s.rows ==>
      var h, row := s.holds[w], s.rows[s.holds[w].job];
      if h.attempt == row.attempts then row.status == Running && row.lease == Some(h.lapses)
      else h.lapses <= s.now && (row.lease.Some? ==> h.lapses < row.lease.value)
  }

  /** Two holds of one job are different attempts at it. */
  ghost predicate Rivals<S, R>(s: State<S, R>, w: nat, v: nat) {
    w in s.holds && v in s.holds && w != v && s.holds[w].job == s.holds[v].job ==>
      s.holds[w].attempt != s.holds[v].attempt
  }

  ghost predicate Fenced<S, R>(s: State<S, R>) {
    && Sound(s)
    && (forall w: nat :: HoldFenced(s, w))
    && (forall w: nat, v: nat :: Rivals(s, w, v))
  }

  ghost predicate IsFencedRun<S, R>(s: State<S, R>, events: seq<Event<S, R>>)
    requires IsRun(s, events)
    decreases |events|
  {
    events == [] || (FinishFenced(s, events[0]) && IsFencedRun(Apply(s, events[0]), events[1..]))
  }

  ghost predicate IsOnTimeRun<S, R>(s: State<S, R>, events: seq<Event<S, R>>)
    requires IsRun(s, events)
    decreases |events|
  {
    events == [] || (FinishOnTime(s, events[0]) && IsOnTimeRun(Apply(s, events[0]), events[1..]))
  }

  lemma {:induction false} ClaimKeepsHoldFenced<S, R>(s: State<S, R>, c: nat, w: nat)
    requires Fenced(s) && c !in s.holds
    ensures HoldFenced(Claimed(s, c), w)
  {
    assert HoldFenced(s, w);
    assert HoldOk(s, w);
    NextIdIsOldest(s.rows, s.now);
    var next := NextId(s.rows, s.now);
    if next.Some? {
      assert JobOk(s, next.value);
      assert IsNext(s.rows, s.now, next.value);
    }
  }

  lemma {:induction false} FinishKeepsHoldFenced<S, R>(s: State<S, R>, e: Event<S, R>, w: nat)
    requires Fenced(s) && Finishing(e) && e.worker in s.holds && FinishFenced(s, e)
    ensures HoldFenced(Finished(s, e), w)
  {
    assert HoldFenced(s, w);
    assert HoldFenced(s, e.worker);
    assert Rivals(s, w, e.worker);
  }

  lemma {:induction false} ApplyKeepsRivals<S, R>(s: State<S, R>, e: Event<S, R>, w: nat, v: nat)
    requires Fenced(s) && Enabled(s, e)
    ensures Rivals(Apply(s, e), w, v)
  {
    assert Rivals(s, w, v);
    assert HoldOk(s, w) && HoldOk(s, v);
  }

  lemma {:induction false} ApplyIsFenced<S, R>(s: State<S, R>, e: Event<S, R>)
    requires Fenced(s) && Enabled(s, e) && FinishFenced(s, e)
    ensures Fenced(Apply(s, e))
  {
    ApplyIsSound(s, e);
    var t := Apply(s, e);
    forall w: nat ensures HoldFenced(t, w) {
      assert HoldFenced(s, w);
      assert HoldOk(s, w);
      if e.Claim? {
        ClaimKeepsHoldFenced(s, e.worker, w);
      } else if Finishing(e) {
        FinishKeepsHoldFenced(s, e, w);
      }
    }
    forall w: nat, v: nat ensures Rivals(t, w, v) {
      ApplyKeepsRivals(s, e, w, v);
    }
  }

  lemma {:induction false} FencedRunsAreFenced<S, R>(s: State<S, R>, events: seq<Event<S, R>>)
    requires Fenced(s) && IsRun(s, events) && IsFencedRun(s, events)
    ensures Fenced(Final(s, events))
    decreases |events|
  {
    if events != [] {
      ApplyIsFenced(s, events[0]);
      FencedRunsAreFenced(Apply(s, events[0]), events[1..]);
    }
  }

  /** Finishing before the lease lapses is enough to be fenced. */
  lemma {:induction false} OnTimeRunsAreFenced<S, R>(s: State<S, R>, events: seq<Event<S, R>>)
    requires Fenced(s) && IsRun(s, events) && IsOnTimeRun(s, events)
    ensures IsFencedRun(s, events)
    decreases |events|
  {
    if events != [] {
      var e := events[0];
      if Finishing(e) {
        assert HoldFenced(s, e.worker);
      }
      ApplyIsFenced(s, e);
      OnTimeRunsAreFenced(Apply(s, e), events[1..]);
    }
  }

  /** In fenced runs the job of a worker within its lease is still running, under exactly that lease. */
  lemma {:induction false} LiveHolderOwnsRow<S, R>(s: State<S, R>, w: nat)
    requires Fenced(s) && HoldsLive(s, w)
    ensures s.holds[w].job in s.rows ==> RunsUnder(s, w)
  {
    assert HoldFenced(s, w);
  }

  /** Completed and failed rows never change in a fenced run; they can only be deleted. */
  lemma {:induction false} TerminalIsFinal<S, R>(s: State<S, R>, events: seq<Event<S, R>>, id: nat)
    requires Fenced(s) && IsRun(s, events) && IsFencedRun(s, events)
    requires id in s.rows && !Active(s.rows[id])
    ensures id in Final(s, events).rows ==> Final(s, events).rows[id] == s.rows[id]
    decreases |events|
  {
    if events != [] {
      var e := events[0];
      var t := Apply(s, e);
      ApplyIsFenced(s, e);
      assert JobOk(s, id);
      NextIdIsOldest(s.rows, s.now);
      if Finishing(e) {
        assert HoldFenced(s, e.worker);
      }
      if id in t.rows {
        TerminalIsFinal(t, events[1..], id);
      } else {
        GoneStaysGone(t, events[1..], id);
      }
    }
  }

  lemma {:induction false} GoneStaysGone<S, R>(s: State<S, R>, events: seq<Event<S, R>>, id: nat)
    requires Sound(s) && IsRun(s, events) && id in s.used && id !in s.rows
    ensures id !in Final(s, events).rows
    decreases |events|
  {
    if events != [] {
      ApplyIsSound(s, events[0]);
      NextIdIsOldest(s.rows, s.now);
      GoneStaysGone(Apply(s, events[0]), events[1..], id);
    }
  }

  lemma {:induction false} RunAppend<S, R>(s: State<S, R>, events: seq<Event<S, R>>, e: Event<S, R>)
    requires IsRun(s, events) && Enabled(Final(s, events), e)
    ensures IsRun(s, events + [e]) && Final(s, events + [e]) == Apply(Final(s, events), e)
    decreases |events|
  {
    if events == [] {
      assert events + [e] == [e];
      assert IsRun(Apply(s, e), []);
      assert [e][1..] == [];
    } else {
      RunAppend(Apply(s, events[0]), events[1..], e);
      assert (events + [e])[1..] == events[1..] + [e];
    }
  }

  /** Once a job was claimed again, its completion can still be turned into a failure by the worker that lost it. */
  lemma {:induction false} LostWorkerOverwrites<S, R>(s: State<S, R>, lost: nat, owner: nat, result: R, error: string)
    requires HoldsCurrent(s, owner) && lost in s.holds && lost != owner
    requires s.holds[lost].job == s.holds[owner].job
    ensures var done, id := Apply(s, Complete(owner, result)), s.holds[owner].job;
            && Enabled(done, Event<S, R>.Fail(lost, error))
            && done.rows[id] == CompletedRow(s.rows[id], result)
            && Apply(done, Fail(lost, error)).rows[id] == FailedRow(done.rows[id], error)
  {
  }

  /**
   * The other way round the worker that lost the job fails it first, and the owner, still the latest claimer, revives
   * it.
   */
  lemma {:induction false} OwnerOverwrites<S, R>(s: State<S, R>, lost: nat, owner: nat, result: R, error: string)
    requires HoldsCurrent(s, owner) && lost in s.holds && lost != owner
    requires s.holds[lost].job == s.holds[owner].job
    ensures var failed, id := Apply(s, Fail(lost, error)), s.holds[owner].job;
            && Enabled(failed, Event<S, R>.Complete(owner, result))
            && HoldsCurrent(failed, owner) && failed.rows[id].status == Failed
            && Apply(failed, Complete(owner, result)).rows[id].status == Completed
  {
  }

  /** Such a loss is reachable: a lease lapses while its worker is still busy, and a second worker claims the job. */
  lemma {:induction false} LossIsReachable<S, R>(subject: S) returns (events: seq<Event<S, R>>)
    ensures IsRun(Start(), events)
    ensures var s := Final(Start(), events);
            Fenced(s) && HoldsCurrent(s, 1) && 0 in s.holds && s.holds[0].job == s.holds[1].job
  {
    var s: State<S, R> := Start();
    events := [];
    RunAppend(s, events, Enqueue(0, subject));
    events := events + [Enqueue(0, subject)];
    assert IsNext(Final(s, events).rows, 0, 0);
    NextIdIsOldest(Final(s, events).rows, 0);
    RunAppend(s, events, Claim(0));
    events := events + [Claim(0)];
    RunAppend(s, events, Tick(LEASE_SECONDS));
    events := events + [Tick(LEASE_SECONDS)];
    assert IsNext(Final(s, events).rows, LEASE_SECONDS, 0);
    NextIdIsOldest(Final(s, events).rows, LEASE_SECONDS);
    RunAppend(s, events, Claim(1));
    events := events + [Claim(1)];
    NothingFinishes(s, events);
    FencedRunsAreFenced(s, events);
  }

  lemma {:induction false} NothingFinishes<S, R>(s: State<S, R>, events: seq<Event<S, R>>)
    requires IsRun(s, events) && forall i :: 0 <= i < |events| ==> !Finishing(events[i])
    ensures IsFencedRun(s, events)
    decreases |events|
  {
    if events != [] {
      NothingFinishes(Apply(s, events[0]), events[1..]);
    }
  }

  // ----- Work left -----

  /** One token for every further claim a row could still take. */
  function Tokens<S, R>(rows: Table<S, R>): set<(nat, nat)> {
    set id <- rows, a: nat | a <= MAX_ATTEMPTS && Active(rows[id]) && rows[id].attempts <= a :: (id, a)
  }

  /** A claim uses up exactly one token; nothing but an enqueue, which adds four, ever adds one. */
  lemma {:induction false} ClaimUsesOneToken<S, R>(s: State<S, R>, w: nat)
    requires Sound(s)
    ensures var next := NextId(s.rows, s.now);
            if next.None? then Tokens(Claimed(s, w).rows) == Tokens(s.rows)
            else next.value in s.rows
                 && (next.value, s.rows[next.value].attempts) in Tokens(s.rows)
                 && Tokens(Claimed(s, w).rows) == Tokens(s.rows) - {(next.value, s.rows[next.value].attempts)}
  {
    NextIdIsOldest(s.rows, s.now);
    var next := NextId(s.rows, s.now);
    if next.Some? {
      assert JobOk(s, next.value);
    }
  }

  function FreshTokens(id: nat): set<(nat, nat)> {
    {(id, 0), (id, 1), (id, 2), (id, 3)}
  }

  lemma {:induction false} OnlyEnqueuesAddTokens<S, R>(s: State<S, R>, e: Event<S, R>)
    requires Sound(s) && Enabled(s, e) && !e.Claim?
    ensures if e.Enqueue? then Tokens(Apply(s, e).rows) == Tokens(s.rows) + FreshTokens(e.id)
            else Tokens(Apply(s, e).rows) <= Tokens(s.rows)
  {
    if e.Enqueue? {
      assert JobOk(s, e.id);
      var tokens := Tokens(Apply(s, e).rows);
      forall t | t in FreshTokens(e.id) ensures t in tokens {
      }
    }
  }

  ghost function ClaimsIn<S, R>(s: State<S, R>, events: seq<Event<S, R>>): nat
    requires IsRun(s, events)
    decreases |events|
  {
    if events == [] then 0
    else
      var rest := ClaimsIn(Apply(s, events[0]), events[1..]);
      if Claims(s, events[0]) then rest + 1 else rest
  }

  function EnqueuesIn<S, R>(events: seq<Event<S, R>>): nat {
    if events == [] then 0
    else if events[0].Enqueue? then EnqueuesIn(events[1..]) + 1
    else EnqueuesIn(events[1..])
  }

  lemma {:induction false} SubsetSize<T>(a: set<T>, b: set<T>)
    requires a <= b
    ensures |a| <= |b|
  {
    assert b == a + (b - a);
  }

  predicate Claims<S, R>(s: State<S, R>, e: Event<S, R>) {
    e.Claim? && AnyRunnable(s.rows, s.now)
  }

  lemma {:induction false} StepPaysTokens<S, R>(s: State<S, R>, e: Event<S, R>)
    requires Sound(s) && Enabled(s, e)
    ensures (if Claims(s, e) then 1 else 0) + |Tokens(Apply(s, e).rows)|
            <= |Tokens(s.rows)| + (if e.Enqueue? then MAX_ATTEMPTS + 1 else 0)
  {
    if e.Claim? {
      NextIdIsOldest(s.rows, s.now);
      ClaimUsesOneToken(s, e.worker);
    } else {
      OnlyEnqueuesAddTokens(s, e);
      if e.Enqueue? {
        assert |Tokens(s.rows) + FreshTokens(e.id)| <= |Tokens(s.rows)| + |FreshTokens(e.id)|;
      } else {
        SubsetSize(Tokens(Apply(s, e).rows), Tokens(s.rows));
      }
    }
  }

  /** Claims are paid for by enqueues: however workers crash or overrun, every job is claimed at most four times. */
  lemma {:induction false} ClaimsAreBounded<S, R>(s: State<S, R>, events: seq<Event<S, R>>)
    requires Sound(s) && IsRun(s, events)
    ensures ClaimsIn(s, events) + |Tokens(Final(s, events).rows)|
            <= |Tokens(s.rows)| + (MAX_ATTEMPTS + 1) * EnqueuesIn(events)
    decreases |events|
  {
    if events != [] {
      ApplyIsSound(s, events[0]);
      StepPaysTokens(s, events[0]);
      ClaimsAreBounded(Apply(s, events[0]), events[1..]);
    }
  }
}
