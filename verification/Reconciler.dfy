/** The reconciler's sweep as it is written (internal/reconciler/reconciler.go), against the
    store and queue calls it makes (internal/jobs/repo.go, internal/queue/client.go). Any call
    may fail, and the rest of the system may act before any call. */
module Reconciler {
  import opened Wrappers
  import opened Lanes
  import opened Jobs
  import opened Protocol
  import opened Safety
  import opened Exclusion

  datatype StaleJob = StaleJob(id: JobId, engine: Engine)

  datatype EnqueueResult = Enqueued | Duplicate | EnqueueError

  function Ids(xs: seq<StaleJob>): seq<JobId> {
    seq(|xs|, i requires 0 <= i < |xs| => xs[i].id)
  }

  /** The latest beginning of a sweep; no sweep has died since. */
  ghost predicate LastBegin(labels: seq<Label>, begun: int) {
    && -1 <= begun < |labels|
    && (0 <= begun ==> labels[begun].SweepBegin?)
    && NoBegin(labels, begun, |labels|)
  }

  predicate NoBegin(labels: seq<Label>, from: int, to: int)
    requires to <= |labels| && -1 <= from
  {
    forall k :: from < k < to ==> !labels[k].SweepBegin? && !labels[k].SweepCrash?
  }

  predicate EnginesKept(jobs: map<JobId, Job>, jobs': map<JobId, Job>) {
    forall id <- jobs :: id in jobs' && jobs'[id].row.engine == jobs[id].row.engine
  }

  lemma StepEngines(cfg: Config, s: State, l: Label)
    requires cfg.Valid() && Enabled(cfg, s, l)
    ensures EnginesKept(s.jobs, JobsAfter(cfg, s, l))
  {
    if !l.Create? && ActOf(s, l).Some? {
      EngineFixed(s.now, s.jobs[ActOf(s, l).value.0], ActOf(s, l).value.1);
    }
  }

  lemma EffectOfConv(cfg: Config, now: Time, j: Job, rep: Report)
    requires cfg.Valid() && Routable(j.row.engine)
    ensures Effect(cfg, now, j, SweepConv(rep)) == j.(conv := EnqueueAs(cfg.Conv(j.row.engine), now, j.conv, rep))
  {
  }

  lemma EffectOfRequeue(cfg: Config, now: Time, j: Job, rep: Report)
    requires cfg.Valid()
    ensures Effect(cfg, now, j, SweepRow(rep)) == j.(row := Commit(rep, j.row, Jobs.RequeueStale(j.row)))
  {
  }

  lemma EffectOfExhaust(cfg: Config, now: Time, j: Job, rep: Report)
    requires cfg.Valid()
    ensures var failed := Jobs.MarkFailed(j.row, now, ReconcilerExhausted);
            Effect(cfg, now, j, SweepExhaust(rep)) == j.(row := Commit(rep, j.row, failed))
  {
  }

  lemma EffectOfHook(cfg: Config, now: Time, j: Job, rep: Report)
    requires cfg.Valid()
    ensures Effect(cfg, now, j, SweepHook(rep)) == j.(hook := EnqueueAs(cfg.webhook, now, j.hook, rep))
  {
  }

  lemma EffectOfGap(cfg: Config, now: Time, j: Job, status: Status, rep: Report)
    requires cfg.Valid()
    ensures Effect(cfg, now, j, SweepGap(status, rep)) == j.(row := Commit(rep, j.row, Some(RecordGap(j.row, status))))
  {
  }

  /** Postgres and Redis as the sweeper sees them. The ghost fields record the history of the
      step system, in which `pc` is where the sweeper stands. */
  class Backend {
    const cfg: Config
    var now: Time
    var jobs: map<JobId, Job>
    ghost var pc: Sweep
    ghost var states: seq<State>
    ghost var labels: seq<Label>
    ghost var begun: int  // where the latest sweep began, -1 before the first

    ghost predicate Valid()
      reads this
    {
      && cfg.Valid()
      && Run(cfg, states, labels)
      && states[|labels|] == State(now, jobs, pc)
      && LastBegin(labels, begun)
    }

    /** The history has only grown, without a new sweep beginning or this one dying. */
    twostate predicate Continues()
      reads this
    {
      old(labels) <= labels && old(states) <= states && begun == old(begun) && EnginesKept(old(jobs), jobs)
    }

    constructor (cfg: Config)
      requires cfg.Valid()
      ensures Valid() && this.cfg == cfg && pc == Idle && states == [INIT] && labels == []
    {
      this.cfg := cfg;
      now, jobs, pc := 0, map[], Idle;
      states, labels, begun := [INIT], [], -1;
    }

    /** Appends the step just performed to the history. */
    ghost method Log(l: Label)
      requires cfg.Valid() && Run(cfg, states, labels) && LastBegin(labels, begun)
      requires Enabled(cfg, states[|labels|], l) && !l.SweepCrash? && !l.Tick?
      requires now == states[|labels|].now && jobs == JobsAfter(cfg, states[|labels|], l)
      modifies this`pc, this`states, this`labels, this`begun
      ensures Valid() && labels == old(labels) + [l] && old(states) <= states
      ensures pc == old(SweepAfter(cfg, states[|labels|], l))
      ensures begun == if l.SweepBegin? then |old(labels)| else old(begun)
      ensures EnginesKept(old(states[|labels|].jobs), jobs)
    {
      var s := states[|labels|];
      RunExtends(cfg, states, labels, l);
      StepEngines(cfg, s, l);
      pc := SweepAfter(cfg, s, l);
      if l.SweepBegin? { begun := |labels|; }
      states, labels := states + [Step(cfg, s, l)], labels + [l];
    }

    /** The ids the sweeper holds are ids of existing jobs. */
    lemma HoldsJobs()
      requires Valid()
      ensures SweepOk(jobs, pc)
    {
      RunSound(cfg, states, labels, |labels|);
    }

    /** API, workers and clock may do anything here; nothing obliges them to. */
    method Interference()
      requires Valid()
      modifies this
      ensures Valid() && pc == old(pc) && Continues()
    {
    }

    /** The rows FindStale's query selects, in some order. */
    method ScanStale() returns (rows: seq<StaleJob>)
      requires cfg.Valid()
      ensures StaleScan(cfg, State(now, jobs, Idle), Ids(rows))
      ensures forall id <- jobs :: id in Ids(rows) <==>
                var r := jobs[id].row;
                || (r.status == Queued && now - r.createdAt > cfg.queuedStaleAfter)
                || (r.status == Active && r.startedAt.Some? && now - r.startedAt.value > cfg.activeStaleAfter)
      ensures forall x <- rows :: x.id in jobs && jobs[x.id].row.engine == x.engine
    {
      var left := jobs.Keys;
      rows := [];
      while left != {}
        invariant left <= jobs.Keys
        invariant Distinct(Ids(rows))
        invariant forall x <- rows :: x.id in jobs && jobs[x.id].row.engine == x.engine
        invariant forall id :: id in Ids(rows) <==> id in jobs && id !in left && Stale(cfg, now, jobs[id].row)
        decreases |left|
      {
        var id :| id in left;
        if Stale(cfg, now, jobs[id].row) {
          ghost var before := Ids(rows);
          rows := rows + [StaleJob(id, jobs[id].row.engine)];
          assert Ids(rows) == before + [id];
        }
        left := left - {id};
      }
    }

    method FindStale() returns (found: Option<seq<StaleJob>>)
      requires Valid() && pc.Idle?
      modifies this
      ensures Valid() && pc == (if found.Some? then Count(Ids(found.value)) else Idle)
      ensures old(labels) < labels && old(states) <= states
      ensures |old(labels)| <= begun == |labels| - 1 && NoBegin(labels, old(begun), begun)
      ensures found.Some? ==> forall x <- found.value :: x.id in jobs && jobs[x.id].row.engine == x.engine
    {
      Interference();
      var fails: bool := *;
      if fails {
        found := None;
        Log(SweepBegin(None));
      } else {
        var rows := ScanStale();
        found := Some(rows);
        Log(SweepBegin(Some(Ids(rows))));
      }
    }

    method RecoveryCount(id: JobId) returns (n: Option<nat>)
      requires Valid() && pc.Count? && pc.todo != [] && pc.todo[0] == id
      modifies this
      ensures Valid() && Continues() && id in jobs
      ensures pc == var rest := old(pc.todo[1..]);
                    if n.None? then Count(rest)
                    else if n.value >= cfg.maxRecoveries then Get(id, rest)
                    else if Routable(jobs[id].row.engine) then Enq(id, rest)
                    else Count(rest)
    {
      Interference();
      HoldsJobs();
      var ok: bool := *;
      n := if ok then Some(Recoveries(jobs[id].row)) else None;
      Log(SweepCount(ok));
    }

    /** EnqueueImageConvert and its siblings: the queue is the one of the job's engine. */
    method EnqueueConvert(id: JobId) returns (result: EnqueueResult)
      requires Valid() && pc.Enq? && pc.id == id
      modifies this
      ensures Valid() && Continues()
      ensures pc == if result.Enqueued? then Requeue(id, false, old(pc.todo)) else Count(old(pc.todo))
    {
      Interference();
      HoldsJobs();
      var rep: Report := *;
      var j := jobs[id];
      result := if !rep.Honest? then EnqueueError else if j.conv.Locked(now) then Duplicate else Enqueued;
      EffectOfConv(cfg, now, j, rep);
      jobs := jobs[id := j.(conv := EnqueueAs(cfg.Conv(j.row.engine), now, j.conv, rep))];
      Log(SweepEnqueue(rep));
    }

    method RequeueStale(id: JobId) returns (ok: bool)
      requires Valid() && pc.Requeue? && pc.id == id
      modifies this
      ensures Valid() && Continues()
      ensures pc == if ok || old(pc.again) then Count(old(pc.todo)) else Requeue(id, true, old(pc.todo))
    {
      Interference();
      HoldsJobs();
      var rep: Report := *;
      var r := jobs[id].row;
      ok := Seen(rep, Jobs.RequeueStale(r));
      EffectOfRequeue(cfg, now, jobs[id], rep);
      jobs := jobs[id := jobs[id].(row := Commit(rep, r, Jobs.RequeueStale(r)))];
      Log(SweepRequeue(rep));
    }

    /** Get, as far as the sweeper uses it: whether the job was read and has a callback. */
    method GetCallback(id: JobId) returns (callback: bool)
      requires Valid() && pc.Get? && pc.id == id
      modifies this
      ensures Valid() && Continues() && pc == Exhaust(id, callback, old(pc.todo))
    {
      Interference();
      HoldsJobs();
      var ok: bool := *;
      callback := ok && jobs[id].row.callback;
      Log(SweepGet(ok));
    }

    method MarkFailed(id: JobId) returns (ok: bool)
      requires Valid() && pc.Exhaust? && pc.id == id
      modifies this
      ensures Valid() && Continues()
      ensures pc == if old(pc.callback) then Tell(id, old(pc.todo)) else Count(old(pc.todo))
    {
      Interference();
      HoldsJobs();
      var rep: Report := *;
      var r := jobs[id].row;
      ok := Seen(rep, Jobs.MarkFailed(r, now, ReconcilerExhausted));
      EffectOfExhaust(cfg, now, jobs[id], rep);
      jobs := jobs[id := jobs[id].(row := Commit(rep, r, Jobs.MarkFailed(r, now, ReconcilerExhausted)))];
      Log(SweepFail(rep));
    }

    /** EnqueueWebhookDeliver after an exhaustion. */
    method EnqueueWebhookDeliver(id: JobId) returns (result: EnqueueResult)
      requires Valid() && pc.Tell? && pc.id == id
      modifies this
      ensures Valid() && Continues()
      ensures pc == Count(old(pc).todo)
    {
      Interference();
      HoldsJobs();
      var rep: Report := *;
      var j := jobs[id];
      result := if !rep.Honest? then EnqueueError else if j.hook.Locked(now) then Duplicate else Enqueued;
      EffectOfHook(cfg, now, j, rep);
      jobs := jobs[id := j.(hook := EnqueueAs(cfg.webhook, now, j.hook, rep))];
      Log(SweepTell(rep));
    }

    /** EnqueueWebhookDeliver for a webhook gap. */
    method EnqueueMissingWebhook(id: JobId) returns (result: EnqueueResult)
      requires Valid() && pc.Gaps? && pc.gaps != [] && pc.gaps[0].id == id
      modifies this
      ensures Valid() && Continues()
      ensures var g, rest := old(pc).gaps[0], old(pc).gaps[1..];
              pc == if result.Enqueued? then GapLog(g, rest) else Remaining(rest)
    {
      Interference();
      HoldsJobs();
      var rep: Report := *;
      assert GapOk(jobs, pc.gaps[0]);
      var j := jobs[id];
      result := if !rep.Honest? then EnqueueError else if j.hook.Locked(now) then Duplicate else Enqueued;
      EffectOfHook(cfg, now, j, rep);
      jobs := jobs[id := j.(hook := EnqueueAs(cfg.webhook, now, j.hook, rep))];
      Log(GapEnqueue(rep));
    }

    /** The rows FindWebhookGaps' query selects, in some order. */
    method ScanGaps() returns (gaps: seq<Gap>)
      requires cfg.Valid()
      ensures GapScan(cfg, State(now, jobs, Idle), gaps)
      ensures forall id <- jobs, status :: Gap(id, status) in gaps <==>
                var r := jobs[id].row;
                && status == r.status && r.status in {Done, Failed} && r.callback && |r.deliveries| == 0
                && r.finishedAt.Some? && now - r.finishedAt.value > cfg.activeStaleAfter
    {
      var left := jobs.Keys;
      gaps := [];
      while left != {}
        invariant left <= jobs.Keys
        invariant Distinct(gaps)
        invariant forall g: Gap :: g in gaps <==> g.id !in left && IsGap(cfg, State(now, jobs, Idle), g)
        decreases |left|
      {
        var id :| id in left;
        if WebhookGap(cfg, now, jobs[id].row) {
          gaps := gaps + [Gap(id, jobs[id].row.status)];
        }
        left := left - {id};
      }
    }

    method FindWebhookGaps() returns (found: Option<seq<Gap>>)
      requires Valid() && pc == Count([])
      modifies this
      ensures Valid() && Continues()
      ensures pc == if found.Some? then Remaining(found.value) else Idle
      ensures labels[|labels| - 1] == GapBegin(found)
    {
      Interference();
      var fails: bool := *;
      found := None;
      if !fails {
        var gaps := ScanGaps();
        found := Some(gaps);
      }
      Log(GapBegin(found));
    }

    method RecordWebhookGapRecovered(id: JobId, status: Status)
      requires Valid() && pc.GapLog? && pc.gap == Gap(id, status)
      modifies this
      ensures Valid() && Continues() && pc == Remaining(old(pc.gaps))
    {
      Interference();
      HoldsJobs();
      var rep: Report := *;
      EffectOfGap(cfg, now, jobs[id], status, rep);
      jobs := jobs[id := jobs[id].(row := Commit(rep, jobs[id].row, Some(RecordGap(jobs[id].row, status))))];
      Log(GapRecord(rep));
    }
  }

  class Sweeper {
    const store: Backend

    constructor (store: Backend)
      ensures this.store == store
    {
      this.store := store;
    }

    /** At the cap: fail the job for good and, whatever MarkFailed said, notify its callback. */
    method Exhaust(id: JobId)
      requires store.Valid() && store.pc.Get? && store.pc.id == id
      modifies store
      ensures store.Valid() && store.Continues() && store.pc == Count(old(store.pc.todo))
    {
      var callback := store.GetCallback(id);
      var _ := store.MarkFailed(id);
      if callback {
        var _ := store.EnqueueWebhookDeliver(id);
      }
    }

    /** Under the cap: enqueue first, then record the recovery, trying twice. */
    method Requeue(id: JobId)
      requires store.Valid() && store.pc.Enq? && store.pc.id == id
      modifies store
      ensures store.Valid() && store.Continues() && store.pc == Count(old(store.pc.todo))
    {
      var enqueued := store.EnqueueConvert(id);
      if enqueued.Enqueued? {
        var ok := store.RequeueStale(id);
        if !ok {
          ok := store.RequeueStale(id);
        }
      }
    }

    method Recover(j: StaleJob)
      requires store.Valid() && store.pc.Count? && store.pc.todo != [] && store.pc.todo[0] == j.id
      requires j.id in store.jobs && store.jobs[j.id].row.engine == j.engine
      modifies store
      ensures store.Valid() && store.Continues() && store.pc == Count(old(store.pc.todo[1..]))
    {
      var n := store.RecoveryCount(j.id);
      if n.Some? {
        if n.value >= store.cfg.maxRecoveries {
          Exhaust(j.id);
        } else if Routable(j.engine) {
          Requeue(j.id);
        }
      }
    }

    /** Re-enqueues one webhook, recording it if it was really missing. */
    method RecoverGap(g: Gap)
      requires store.Valid() && store.pc.Gaps? && store.pc.gaps != [] && store.pc.gaps[0] == g
      modifies store
      ensures store.Valid() && store.Continues() && store.pc == Remaining(old(store.pc.gaps[1..]))
    {
      var result := store.EnqueueMissingWebhook(g.id);
      if result.Enqueued? {
        store.RecordWebhookGapRecovered(g.id, g.status);
      }
    }

    method RecoverGaps(gaps: seq<Gap>)
      requires store.Valid() && store.pc == Remaining(gaps)
      modifies store
      ensures store.Valid() && store.Continues() && store.pc == Idle
    {
      var i := 0;
      while i < |gaps|
        invariant 0 <= i <= |gaps|
        invariant store.Valid() && store.Continues() && store.pc == Remaining(gaps[i..])
      {
        RecoverGap(gaps[i]);
        i := i + 1;
      }
    }

    /** The second scan. */
    method SweepGaps()
      requires store.Valid() && store.pc == Count([])
      modifies store
      ensures store.Valid() && store.Continues() && store.pc == Idle
    {
      var gaps := store.FindWebhookGaps();
      if gaps.Some? {
        RecoverGaps(gaps.value);
      }
    }

    method RecoverAll(stale: seq<StaleJob>)
      requires store.Valid() && store.pc == Count(Ids(stale))
      requires forall x <- stale :: x.id in store.jobs && store.jobs[x.id].row.engine == x.engine
      modifies store
      ensures store.Valid() && store.Continues() && store.pc == Count([])
    {
      var i := 0;
      while i < |stale|
        invariant 0 <= i <= |stale|
        invariant store.Valid() && store.Continues() && store.pc == Count(Ids(stale)[i..])
      {
        assert stale[i] in stale;
        Recover(stale[i]);
        i := i + 1;
      }
    }

    /** sweep: whatever fails and whatever interleaves, the call is one complete pass of the
        step system's sweeper: it begins exactly one sweep and brings it to its end. */
    method Sweep()
      requires store.Valid() && store.pc.Idle?
      modifies store
      ensures store.Valid() && store.pc.Idle?
      ensures old(store.labels) <= store.labels && old(store.states) <= store.states
      ensures |old(store.labels)| <= store.begun < |store.labels|
      ensures NoBegin(store.labels, old(store.begun), store.begun)
    {
      var stale := store.FindStale();
      if stale.Some? {
        RecoverAll(stale.value);
        SweepGaps();
      }
    }
  }
}
