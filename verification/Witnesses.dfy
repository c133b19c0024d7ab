/** Runs that show which hypotheses of the protocol theorems cannot be dropped. */
module Witnesses {
  import opened Wrappers
  import opened Lanes
  import opened Jobs
  import opened Protocol

  /** Extends a run by one step. */
  lemma Take(cfg: Config, states: seq<State>, labels: seq<Label>, l: Label)
    returns (states': seq<State>, labels': seq<Label>)
    requires cfg.Valid() && Run(cfg, states, labels) && Enabled(cfg, states[|labels|], l)
    ensures Run(cfg, states', labels') && states <= states' && labels' == labels + [l]
    ensures states'[|labels'|] == Step(cfg, states[|labels|], l)
  {
    states', labels' := states + [Step(cfg, states[|labels|], l)], labels + [l];
    RunExtends(cfg, states, labels, l);
  }

  /** A job created at time zero, whose API call failed to enqueue or did enqueue it, at time `to`. */
  lemma OneJob(cfg: Config, to: Time, enqueued: bool) returns (states: seq<State>, labels: seq<Label>)
    requires cfg.Valid() && 0 <= to
    ensures Run(cfg, states, labels)
    ensures states[|labels|] == State(to, map[0 := FirstJob(cfg, enqueued)], Idle)
  {
    states, labels := [INIT], [];
    states, labels := Take(cfg, states, labels, Create(0, Image, true));
    states, labels := Take(cfg, states, labels, Other(0, ApiEnqueue(if enqueued then Honest else Lost(false))));
    states, labels := Take(cfg, states, labels, Tick(to));
  }

  function FirstJob(cfg: Config, enqueued: bool): Job
    requires cfg.Valid()
  {
    Job(NewRow(0, Image, true), if enqueued then Enqueue(cfg.image, 0, EMPTY_LANE) else EMPTY_LANE, EMPTY_LANE, false)
  }

  lemma {:induction false} Enumerate(ids: set<JobId>) returns (xs: seq<JobId>)
    ensures Distinct(xs) && forall id :: id in xs <==> id in ids
  {
    if ids == {} {
      xs := [];
    } else {
      var id :| id in ids;
      xs := Enumerate(ids - {id});
      xs := [id] + xs;
    }
  }

  /** An idle sweeper finds a stale job, and turns to it first. */
  lemma BeginWith(cfg: Config, states: seq<State>, labels: seq<Label>, id: JobId)
    returns (states': seq<State>, labels': seq<Label>, rest: seq<JobId>)
    requires cfg.Valid() && Run(cfg, states, labels) && states[|labels|].sweep.Idle?
    requires id in states[|labels|].jobs && Stale(cfg, states[|labels|].now, states[|labels|].jobs[id].row)
    ensures Run(cfg, states', labels') && states <= states' && labels <= labels'
    ensures states'[|labels'|] == states[|labels|].(sweep := Count([id] + rest))
  {
    var s := states[|labels|];
    rest := Enumerate(set x <- s.jobs | Stale(cfg, s.now, s.jobs[x].row) && x != id);
    forall k | 0 <= k < |rest| ensures rest[k] != id { assert rest[k] in rest; }
    assert StaleScan(cfg, s, [id] + rest);
    states', labels' := Take(cfg, states, labels, SweepBegin(Some([id] + rest)));
  }

  /** The lock is all that keeps tasks apart: in any run, a live task whose lock has lapsed can
      be joined by another as soon as the job counts as stale and is under the recovery cap. */
  lemma LapsedLockDuplicates(cfg: Config, states: seq<State>, labels: seq<Label>, id: JobId)
    returns (states': seq<State>, labels': seq<Label>)
    requires cfg.Valid() && Run(cfg, states, labels) && states[|labels|].sweep.Idle? && id in states[|labels|].jobs
    requires var s := states[|labels|];
             var j := s.jobs[id];
             && j.conv.tasks != [] && !j.conv.Locked(s.now)
             && Stale(cfg, s.now, j.row) && Recoveries(j.row) < cfg.maxRecoveries && Routable(j.row.engine)
    ensures Run(cfg, states', labels') && states <= states' && labels <= labels'
    ensures id in states'[|labels'|].jobs && |states'[|labels'|].jobs[id].conv.tasks| >= 2
  {
    var rest;
    states', labels', rest := BeginWith(cfg, states, labels, id);
    states', labels' := Take(cfg, states', labels', SweepCount(true));
    assert states'[|labels'|].sweep == Enq(id, rest);
    states', labels' := Take(cfg, states', labels', SweepEnqueue(Honest));
  }

  /** Waiting is not covered by the lock: whatever the configuration, a task never picked up
      until its lock has expired is joined by a second one. */
  lemma QueueWaitDuplicates(cfg: Config) returns (states: seq<State>, labels: seq<Label>)
    requires cfg.Valid() && 0 < cfg.maxRecoveries
    ensures Run(cfg, states, labels)
    ensures 0 in states[|labels|].jobs && |states[|labels|].jobs[0].conv.tasks| >= 2
  {
    TtlPositive(cfg.image);
    NewRowOk(0, Image, true);
    states, labels := OneJob(cfg, Max(cfg.image.LockTtl(), cfg.queuedStaleAfter + 1), true);
    states, labels := LapsedLockDuplicates(cfg, states, labels, 0);
  }

  // ----- one job, recovered again and again -----

  function Max(a: int, b: int): int { if a < b then b else a }

  /** Job 0 is all there is: unfinished, with a callback, recovered `recoveries` times and
      attempted `attempts` times. */
  predicate Alone(s: State, recoveries: nat, attempts: nat) {
    && s.jobs.Keys == {0}
    && var r := s.jobs[0].row;
       && RowOk(r) && !Terminal(r) && (r.status == Active ==> r.startedAt.Some?)
       && r.engine == Image && r.callback && s.jobs[0].hook == EMPTY_LANE
       && Recoveries(r) == recoveries && r.attempts == attempts
  }

  /** Between two sweeps. */
  predicate Calm(s: State, recoveries: nat, attempts: nat) { s.sweep.Idle? && Alone(s, recoveries, attempts) }

  /** The job counts as stale, and no lock protects it. */
  predicate Ripe(cfg: Config, s: State) {
    0 in s.jobs && Stale(cfg, s.now, s.jobs[0].row) && !s.jobs[0].conv.Locked(s.now)
  }

  lemma CalmStart(cfg: Config) returns (states: seq<State>, labels: seq<Label>)
    requires cfg.Valid()
    ensures Run(cfg, states, labels) && Calm(states[|labels|], 0, 0)
  {
    states, labels := OneJob(cfg, 0, true);
    NewRowOk(0, Image, true);
  }

  /** Time passes until the job is stale and its lock has lapsed. */
  lemma Ripen(cfg: Config, states: seq<State>, labels: seq<Label>, recoveries: nat, attempts: nat)
    returns (states': seq<State>, labels': seq<Label>)
    requires cfg.Valid() && Run(cfg, states, labels) && Calm(states[|labels|], recoveries, attempts)
    ensures Run(cfg, states', labels')
    ensures Calm(states'[|labels'|], recoveries, attempts) && Ripe(cfg, states'[|labels'|])
  {
    var s := states[|labels|];
    var r, lock := s.jobs[0].row, s.jobs[0].conv.lock;
    var due :=
      if r.status == Queued then r.createdAt + cfg.queuedStaleAfter + 1
      else r.startedAt.value + cfg.activeStaleAfter + 1;
    var lapse := if lock.Some? then lock.value.expiry else 0;
    states', labels' := Take(cfg, states, labels, Tick(Max(s.now, Max(due, lapse))));
  }

  /** A sweep finds the stale job and counts its recoveries. */
  lemma Begin(cfg: Config, states: seq<State>, labels: seq<Label>, recoveries: nat, attempts: nat)
    returns (states': seq<State>, labels': seq<Label>)
    requires cfg.Valid() && Run(cfg, states, labels)
    requires Calm(states[|labels|], recoveries, attempts) && Ripe(cfg, states[|labels|])
    ensures Run(cfg, states', labels')
    ensures var turn := if recoveries >= cfg.maxRecoveries then Get(0, []) else Enq(0, []);
            states'[|labels'|] == states[|labels|].(sweep := turn)
  {
    assert StaleScan(cfg, states[|labels|], [0]);
    states', labels' := Take(cfg, states, labels, SweepBegin(Some([0])));
    assert states'[|labels'|] == states[|labels|].(sweep := Count([0]));
    states', labels' := Take(cfg, states', labels', SweepCount(true));
    assert [0][1..] == [];
  }

  /** The sweeper has just enqueued a task for the job. */
  predicate Enqueued(s: State, recoveries: nat, attempts: nat) {
    && Alone(s, recoveries, attempts) && s.sweep == Requeue(0, false, [])
    && var ts := s.jobs[0].conv.tasks;
       ts != [] && ts[|ts| - 1].phase == Waiting(s.now)
  }

  /** From one sweep to the enqueue of the next. */
  lemma EnqueueAgain(cfg: Config, states: seq<State>, labels: seq<Label>, recoveries: nat, attempts: nat)
    returns (states': seq<State>, labels': seq<Label>)
    requires cfg.Valid() && Run(cfg, states, labels)
    requires Calm(states[|labels|], recoveries, attempts) && recoveries < cfg.maxRecoveries
    ensures Run(cfg, states', labels') && Enqueued(states'[|labels'|], recoveries, attempts)
  {
    states', labels' := Ripen(cfg, states, labels, recoveries, attempts);
    states', labels' := Begin(cfg, states', labels', recoveries, attempts);
    states', labels' := Take(cfg, states', labels', SweepEnqueue(Honest));
  }

  /** The recovery is recorded and the sweep ends without a fault. */
  lemma RecordAndEnd(cfg: Config, states: seq<State>, labels: seq<Label>, recoveries: nat, attempts: nat)
    returns (states': seq<State>, labels': seq<Label>)
    requires cfg.Valid() && Run(cfg, states, labels) && Enqueued(states[|labels|], recoveries, attempts)
    ensures Run(cfg, states', labels') && Calm(states'[|labels'|], recoveries + 1, attempts)
  {
    RequeueOk(states[|labels|].jobs[0].row);
    states', labels' := Take(cfg, states, labels, SweepRequeue(Honest));
    states', labels' := EndWithoutGaps(cfg, states', labels', recoveries + 1, attempts);
  }

  lemma EndWithoutGaps(cfg: Config, states: seq<State>, labels: seq<Label>, recoveries: nat, attempts: nat)
    returns (states': seq<State>, labels': seq<Label>)
    requires cfg.Valid() && Run(cfg, states, labels)
    requires Alone(states[|labels|], recoveries, attempts) && states[|labels|].sweep == Count([])
    ensures Run(cfg, states', labels') && Calm(states'[|labels'|], recoveries, attempts)
  {
    assert GapScan(cfg, states[|labels|], []);
    states', labels' := Take(cfg, states, labels, GapBegin(Some([])));
  }

  /** Every number of recoveries up to the cap is reached, without any fault. */
  lemma {:induction false} Recovered(cfg: Config, n: nat) returns (states: seq<State>, labels: seq<Label>)
    requires cfg.Valid() && n <= cfg.Cap()
    ensures Run(cfg, states, labels) && Calm(states[|labels|], n, 0)
  {
    if n == 0 {
      states, labels := CalmStart(cfg);
    } else {
      states, labels := Recovered(cfg, n - 1);
      states, labels := EnqueueAgain(cfg, states, labels, n - 1, 0);
      states, labels := RecordAndEnd(cfg, states, labels, n - 1, 0);
    }
  }

  /** A RequeueStale that commits and reports failure is recorded twice: whatever the positive
      cap, some run has one recovery event more than the cap. */
  lemma LostAckOvercounts(cfg: Config) returns (states: seq<State>, labels: seq<Label>)
    requires cfg.Valid() && 0 < cfg.maxRecoveries
    ensures Run(cfg, states, labels)
    ensures 0 in states[|labels|].jobs && Recoveries(states[|labels|].jobs[0].row) == cfg.Cap() + 1
  {
    states, labels := Recovered(cfg, cfg.Cap() - 1);
    states, labels := EnqueueAgain(cfg, states, labels, cfg.Cap() - 1, 0);
    states, labels := RequeueOnce(cfg, states, labels, 0, false);
    states, labels := RequeueOnce(cfg, states, labels, 0, true);
  }

  /** The sweeper is about to record the recovery of an unfinished job. */
  predicate Requeueing(s: State, id: JobId, again: bool) {
    && s.sweep.Requeue? && s.sweep.id == id && s.sweep.again == again
    && id in s.jobs && RowOk(s.jobs[id].row) && !Terminal(s.jobs[id].row)
  }

  lemma RequeueOnce(cfg: Config, states: seq<State>, labels: seq<Label>, id: JobId, again: bool)
    returns (states': seq<State>, labels': seq<Label>)
    requires cfg.Valid() && Run(cfg, states, labels) && Requeueing(states[|labels|], id, again)
    ensures Run(cfg, states', labels')
    ensures var s, s' := states[|labels|], states'[|labels'|];
            && (!again ==> Requeueing(s', id, true))
            && id in s'.jobs && Recoveries(s'.jobs[id].row) == Recoveries(s.jobs[id].row) + 1
  {
    RequeueOk(states[|labels|].jobs[id].row);
    states', labels' := Take(cfg, states, labels, SweepRequeue(Lost(true)));
  }

  /** The sweeper ignores MarkFailed's error: whatever the configuration, when the exhaustion's
      write is lost, a webhook task is enqueued for a job that is not finished. */
  lemma LostExhaustionNotifies(cfg: Config) returns (states: seq<State>, labels: seq<Label>)
    requires cfg.Valid()
    ensures Run(cfg, states, labels)
    ensures 0 in states[|labels|].jobs && states[|labels|].jobs[0].hook.tasks != []
    ensures !Terminal(states[|labels|].jobs[0].row)
  {
    states, labels := Recovered(cfg, cfg.Cap());
    states, labels := Ripen(cfg, states, labels, cfg.Cap(), 0);
    states, labels := Begin(cfg, states, labels, cfg.Cap(), 0);
    states, labels := NotifyUnfinished(cfg, states, labels, 0);
  }

  /** The sweeper is about to act on an unfinished job with a callback and no webhook task. */
  predicate Unfinished(s: State, id: JobId) {
    id in s.jobs && s.jobs[id].row.callback && !Terminal(s.jobs[id].row) && s.jobs[id].hook == EMPTY_LANE
  }

  lemma LoseExhaustion(cfg: Config, states: seq<State>, labels: seq<Label>, id: JobId)
    returns (states': seq<State>, labels': seq<Label>)
    requires cfg.Valid() && Run(cfg, states, labels) && Unfinished(states[|labels|], id)
    requires states[|labels|].sweep.Get? && states[|labels|].sweep.id == id
    ensures Run(cfg, states', labels') && Unfinished(states'[|labels'|], id)
    ensures states'[|labels'|].sweep.Tell? && states'[|labels'|].sweep.id == id
  {
    states', labels' := Take(cfg, states, labels, SweepGet(true));
    states', labels' := Take(cfg, states', labels', SweepFail(Lost(false)));
  }

  lemma NotifyUnfinished(cfg: Config, states: seq<State>, labels: seq<Label>, id: JobId)
    returns (states': seq<State>, labels': seq<Label>)
    requires cfg.Valid() && Run(cfg, states, labels) && Unfinished(states[|labels|], id)
    requires states[|labels|].sweep.Get? && states[|labels|].sweep.id == id
    ensures Run(cfg, states', labels')
    ensures id in states'[|labels'|].jobs && states'[|labels'|].jobs[id].hook.tasks != []
         && !Terminal(states'[|labels'|].jobs[id].row)
  {
    states', labels' := LoseExhaustion(cfg, states, labels, id);
    states', labels' := Take(cfg, states', labels', SweepTell(Honest));
  }

  // ----- attempts without end -----

  /** The newest task of the job is picked up and reads the job. */
  lemma PickUp(cfg: Config, states: seq<State>, labels: seq<Label>, recoveries: nat, attempts: nat)
    returns (states': seq<State>, labels': seq<Label>, i: nat)
    requires cfg.Valid() && Run(cfg, states, labels) && Calm(states[|labels|], recoveries, attempts)
    requires var ts := states[|labels|].jobs[0].conv.tasks;
             ts != [] && ts[|ts| - 1].phase == Waiting(states[|labels|].now)
    ensures Run(cfg, states', labels') && Calm(states'[|labels'|], recoveries, attempts)
    ensures states'[|labels'|].jobs[0].conv.Runs(i, Activate)
  {
    i := |states[|labels|].jobs[0].conv.tasks| - 1;
    states', labels' := Take(cfg, states, labels, Other(0, ConvStart(i)));
    states', labels' := ReadJob(cfg, states', labels', recoveries, attempts, i);
  }

  lemma ReadJob(cfg: Config, states: seq<State>, labels: seq<Label>, recoveries: nat, attempts: nat, i: nat)
    returns (states': seq<State>, labels': seq<Label>)
    requires cfg.Valid() && Run(cfg, states, labels) && Calm(states[|labels|], recoveries, attempts)
    requires states[|labels|].jobs[0].conv.Runs(i, Load)
    ensures Run(cfg, states', labels') && Calm(states'[|labels'|], recoveries, attempts)
    ensures states'[|labels'|].jobs[0].conv.Runs(i, Activate)
  {
    states', labels' := Take(cfg, states, labels, Other(0, ConvLoad(i, LoadOk)));
  }

  lemma Attempt(cfg: Config, states: seq<State>, labels: seq<Label>, recoveries: nat, attempts: nat, i: nat)
    returns (states': seq<State>, labels': seq<Label>)
    requires cfg.Valid() && Run(cfg, states, labels) && Calm(states[|labels|], recoveries, attempts)
    requires states[|labels|].jobs[0].conv.Runs(i, Activate)
    ensures Run(cfg, states', labels') && Calm(states'[|labels'|], recoveries, attempts + 1)
  {
    MarkActiveOk(states[|labels|].jobs[0].row, states[|labels|].now);
    states', labels' := Take(cfg, states, labels, Other(0, ConvActivate(i, Honest)));
  }

  /** A sweeper that dies after each enqueue and before its event leaves no trace of the recovery:
      whatever the positive cap, attempts grow without bound while no recovery is ever counted. */
  lemma {:induction false} DyingSweeperUnbounded(cfg: Config, n: nat) returns (states: seq<State>, labels: seq<Label>)
    requires cfg.Valid() && 0 < cfg.maxRecoveries
    ensures Run(cfg, states, labels) && Calm(states[|labels|], 0, n)
  {
    if n == 0 {
      states, labels := CalmStart(cfg);
    } else {
      states, labels := DyingSweeperUnbounded(cfg, n - 1);
      states, labels := EnqueueAgain(cfg, states, labels, 0, n - 1);
      states, labels := Take(cfg, states, labels, SweepCrash);
      var i;
      states, labels, i := PickUp(cfg, states, labels, 0, n - 1);
      states, labels := Attempt(cfg, states, labels, 0, n - 1, i);
    }
  }
}
