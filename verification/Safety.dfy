/** What every reachable row satisfies, in every interleaving and under every fault. */
module Safety {
  import opened Wrappers
  import opened Lanes
  import opened Jobs
  import opened Protocol

  // ----- invariant -----

  predicate TaskOk(r: Row, t: Task) {
    && (t.At(Finish) ==> r.outputs > 0)
    && (t.At(Notify(true)) || t.At(Notify(false)) ==> Terminal(r))
  }

  predicate TasksOk(r: Row, ts: seq<Task>) {
    forall i :: 0 <= i < |ts| ==> TaskOk(r, ts[i])
  }

  /** A row is in order, and no handler is past a point its row has not reached. */
  predicate JobOk(j: Job) {
    RowOk(j.row) && TasksOk(j.row, j.conv.tasks)
  }

  predicate AllOk(jobs: map<JobId, Job>) {
    forall id <- jobs :: JobOk(jobs[id])
  }

  predicate GapOk(jobs: map<JobId, Job>, g: Gap) {
    g.id in jobs && Terminal(jobs[g.id].row) && jobs[g.id].row.status == g.status
  }

  /** The sweeper only holds ids of existing jobs, and statuses that are still current. */
  predicate SweepOk(jobs: map<JobId, Job>, sweep: Sweep) {
    match sweep
    case Idle => true
    case Count(todo) => forall id <- todo :: id in jobs
    case Gaps(gaps) => gaps != [] && forall g <- gaps :: GapOk(jobs, g)
    case GapLog(gap, gaps) => GapOk(jobs, gap) && forall g <- gaps :: GapOk(jobs, g)
    case _ =>
      sweep.id in jobs && (sweep.Enq? ==> Routable(jobs[sweep.id].row.engine)) && forall id <- sweep.todo :: id in jobs
  }

  predicate Sound(s: State) { AllOk(s.jobs) && SweepOk(s.jobs, s.sweep) }

  /** Every job of `jobs` is still there, its row evolved. */
  predicate Later(jobs: map<JobId, Job>, jobs': map<JobId, Job>) {
    forall id <- jobs :: id in jobs' && Evolves(jobs[id].row, jobs'[id].row)
  }

  lemma EvolvesTransitive(a: Row, b: Row, c: Row)
    requires Evolves(a, b) && Evolves(b, c)
    ensures Evolves(a, c)
  {
  }

  lemma LaterTransitive(a: map<JobId, Job>, b: map<JobId, Job>, c: map<JobId, Job>)
    requires Later(a, b) && Later(b, c)
    ensures Later(a, c)
  {
    forall id <- a ensures id in c && Evolves(a[id].row, c[id].row) {
      EvolvesTransitive(a[id].row, b[id].row, c[id].row);
    }
  }

  predicate Keeps(r: Row, r': Row) { RowOk(r') && Evolves(r, r') }

  lemma CommitOk(rep: Report, r: Row, r': Option<Row>)
    requires RowOk(r) && (r'.Some? ==> RowOk(r'.value) && Evolves(r, r'.value))
    ensures Keeps(r, Commit(rep, r, r'))
  {
  }

  lemma ActiveKeeps(rep: Report, r: Row, now: Time)
    requires RowOk(r)
    ensures Keeps(r, Commit(rep, r, MarkActive(r, now)))
  {
    if MarkActive(r, now).Some? { MarkActiveOk(r, now); }
    CommitOk(rep, r, MarkActive(r, now));
  }

  lemma DoneKeeps(rep: Report, r: Row, now: Time)
    requires RowOk(r) && r.outputs > 0
    ensures Keeps(r, Commit(rep, r, MarkDone(r, now)))
  {
    if MarkDone(r, now).Some? { MarkDoneOk(r, now); }
    CommitOk(rep, r, MarkDone(r, now));
  }

  lemma FailedKeeps(rep: Report, r: Row, now: Time, action: Action)
    requires RowOk(r) && action != ReconcilerRecovery
    ensures Keeps(r, Commit(rep, r, MarkFailed(r, now, action)))
    ensures rep != Lost(false) ==> Terminal(Commit(rep, r, MarkFailed(r, now, action)))
  {
    MarkFailedOk(r, now, action);
    CommitOk(rep, r, MarkFailed(r, now, action));
  }

  lemma RequeueKeeps(rep: Report, r: Row)
    requires RowOk(r)
    ensures Keeps(r, Commit(rep, r, RequeueStale(r)))
  {
    RequeueOk(r);
    CommitOk(rep, r, RequeueStale(r));
  }

  lemma GapKeeps(rep: Report, r: Row, status: Status)
    requires RowOk(r) && Terminal(r) && status == r.status
    ensures Keeps(r, Commit(rep, r, Some(RecordGap(r, status))))
  {
    RecordGapOk(r, status);
    CommitOk(rep, r, Some(RecordGap(r, status)));
  }

  lemma OtherRowStays(now: Time, j: Job, act: Act)
    requires RowOk(j.row) && (act.ConvRecord? || act.HookDeliver? || act.HookFlag?)
    ensures Keeps(j.row, RowAfter(now, j, act))
  {
  }

  lemma RowStays(now: Time, j: Job, act: Act)
    requires RowOk(j.row) && (act.ConvFinish? ==> j.row.outputs > 0)
    requires act.SweepGap? ==> Terminal(j.row) && act.status == j.row.status
    ensures Keeps(j.row, RowAfter(now, j, act))
  {
    if act.ConvActivate? { ActiveKeeps(act.report, j.row, now); }
    else if act.ConvFinish? { DoneKeeps(act.report, j.row, now); }
    else if act.ConvReject? { FailedKeeps(act.report, j.row, now, NoAction); }
    else if act.SweepRow? { RequeueKeeps(act.report, j.row); }
    else if act.SweepExhaust? { FailedKeeps(act.report, j.row, now, ReconcilerExhausted); }
    else if act.SweepGap? { GapKeeps(act.report, j.row, act.status); }
    else if act.ConvRecord? || act.HookDeliver? || act.HookFlag? { OtherRowStays(now, j, act); }
    else { assert RowAfter(now, j, act) == j.row; }
  }

  /** A handler may move on to a point its row has reached. */
  lemma GotoOk(r: Row, l: Lane, i: nat, pc: Pc)
    requires l.RunsAny(i) && TasksOk(r, l.tasks)
    requires (pc == Finish ==> r.outputs > 0) && (pc.Notify? ==> Terminal(r))
    ensures TasksOk(r, Goto(l, i, pc).tasks)
  {
  }

  /** The handler's steps that record progress only move on to what they have recorded. */
  lemma WritersStay(cfg: Config, now: Time, j: Job, act: Act)
    requires act.ConvRecord? || act.ConvFinish? || act.ConvReject?
    requires cfg.Valid() && RowOk(j.row) && CanAct(cfg, now, j, act)
    requires TasksOk(RowAfter(now, j, act), j.conv.tasks)
    ensures TasksOk(RowAfter(now, j, act), ConvAfter(cfg, now, j, act).tasks)
  {
    if act.ConvReject? { MarkFailedOk(j.row, now, NoAction); }
    var pc := ConvAfter(cfg, now, j, act).tasks[act.i].phase.pc;
    GotoOk(RowAfter(now, j, act), j.conv, act.i, pc);
  }

  lemma MoversStay(cfg: Config, now: Time, j: Job, act: Act)
    requires act.ConvLoad? || act.ConvActivate? || act.ConvEngine? || act.ConvNotify?
    requires cfg.Valid() && CanAct(cfg, now, j, act) && TasksOk(RowAfter(now, j, act), j.conv.tasks)
    ensures TasksOk(RowAfter(now, j, act), ConvAfter(cfg, now, j, act).tasks)
  {
    GotoOk(RowAfter(now, j, act), j.conv, act.i, ConvAfter(cfg, now, j, act).tasks[act.i].phase.pc);
  }

  lemma TasksStay(cfg: Config, now: Time, j: Job, act: Act)
    requires cfg.Valid() && RowOk(j.row) && CanAct(cfg, now, j, act)
    requires TasksOk(RowAfter(now, j, act), j.conv.tasks)
    ensures TasksOk(RowAfter(now, j, act), ConvAfter(cfg, now, j, act).tasks)
  {
    if act.ConvRecord? || act.ConvFinish? || act.ConvReject? {
      WritersStay(cfg, now, j, act);
    } else if act.ConvLoad? || act.ConvActivate? || act.ConvEngine? || act.ConvNotify? {
      MoversStay(cfg, now, j, act);
    }
  }

  lemma EffectKeepsJob(cfg: Config, now: Time, j: Job, act: Act)
    requires cfg.Valid() && JobOk(j) && CanAct(cfg, now, j, act)
    requires act.SweepGap? ==> Terminal(j.row) && act.status == j.row.status
    ensures JobOk(Effect(cfg, now, j, act)) && Evolves(j.row, Effect(cfg, now, j, act).row)
  {
    if act.ConvFinish? { assert TaskOk(j.row, j.conv.tasks[act.i]); }
    RowStays(now, j, act);
    TasksStay(cfg, now, j, act);
  }

  lemma UpdateKeeps(jobs: map<JobId, Job>, id: JobId, j: Job)
    requires AllOk(jobs) && JobOk(j) && (id in jobs ==> Evolves(jobs[id].row, j.row))
    ensures AllOk(jobs[id := j]) && Later(jobs, jobs[id := j])
  {
  }

  lemma StepKeepsJobs(cfg: Config, s: State, l: Label)
    requires cfg.Valid() && Sound(s) && Enabled(cfg, s, l)
    ensures AllOk(JobsAfter(cfg, s, l)) && Later(s.jobs, JobsAfter(cfg, s, l))
  {
    if l.Create? {
      NewRowOk(s.now, l.engine, l.callback);
      UpdateKeeps(s.jobs, l.id, Job(NewRow(s.now, l.engine, l.callback), EMPTY_LANE, EMPTY_LANE, true));
    } else if ActOf(s, l).Some? {
      var (id, act) := ActOf(s, l).value;
      if l.GapRecord? { assert GapOk(s.jobs, s.sweep.gap); }
      assert act.SweepGap? ==> l.GapRecord?;
      EffectKeepsJob(cfg, s.now, s.jobs[id], act);
      UpdateKeeps(s.jobs, id, Effect(cfg, s.now, s.jobs[id], act));
    }
  }

  lemma SweepStays(jobs: map<JobId, Job>, jobs': map<JobId, Job>, sweep: Sweep)
    requires SweepOk(jobs, sweep) && Later(jobs, jobs')
    ensures SweepOk(jobs', sweep)
  {
  }

  lemma SweepMoves(cfg: Config, s: State, l: Label)
    requires cfg.Valid() && Enabled(cfg, s, l) && SweepOk(s.jobs, s.sweep)
    ensures SweepOk(s.jobs, SweepAfter(cfg, s, l))
  {
  }

  lemma StepSound(cfg: Config, s: State, l: Label)
    requires cfg.Valid() && Sound(s) && Enabled(cfg, s, l)
    ensures Sound(Step(cfg, s, l))
  {
    StepKeepsJobs(cfg, s, l);
    SweepMoves(cfg, s, l);
    SweepStays(s.jobs, JobsAfter(cfg, s, l), SweepAfter(cfg, s, l));
  }

  lemma {:induction false} RunSound(cfg: Config, states: seq<State>, labels: seq<Label>, k: nat)
    requires cfg.Valid() && Run(cfg, states, labels) && k < |states|
    ensures Sound(states[k])
  {
    if k > 0 {
      assert StepAt(cfg, states, labels, k - 1);
      RunSound(cfg, states, labels, k - 1);
      StepSound(cfg, states[k - 1], labels[k - 1]);
    }
  }

  // ----- theorems -----

  /** In every state of every run: the event log is a chain from NULL to the current status,
      finished_at is set exactly for terminal jobs, attempts counts the events into active,
      started_at is set exactly once attempted, and a done job has an output. */
  lemma ReachableRows(cfg: Config, states: seq<State>, labels: seq<Label>, k: nat, id: JobId)
    requires cfg.Valid() && Run(cfg, states, labels) && k < |states| && id in states[k].jobs
    ensures var r := states[k].jobs[id].row;
            && r.status in {Queued, Active, Done, Failed}
            && Chain(r.events, r.status)
            && (r.finishedAt.Some? <==> Terminal(r))
            && (r.startedAt.Some? <==> r.attempts > 0)
            && r.attempts == CountTo(r.events, Active)
            && (r.status == Done ==> r.outputs > 0)
  {
    RunSound(cfg, states, labels, k);
  }

  /** Between any two states of a run rows only evolve: done and failed are absorbing,
      started_at is pinned once set, and the event log is append-only. */
  lemma {:induction false} RowsEvolve(cfg: Config, states: seq<State>, labels: seq<Label>, i: nat, k: nat)
    requires cfg.Valid() && Run(cfg, states, labels) && i <= k < |states|
    ensures Later(states[i].jobs, states[k].jobs)
  {
    if i < k {
      assert StepAt(cfg, states, labels, k - 1);
      RowsEvolve(cfg, states, labels, i, k - 1);
      RunSound(cfg, states, labels, k - 1);
      StepKeepsJobs(cfg, states[k - 1], labels[k - 1]);
      LaterTransitive(states[i].jobs, states[k - 1].jobs, states[k].jobs);
    }
  }

  // ----- webhooks only for finished jobs -----

  /** Step `m` is the sweeper's exhaustion of `id` hitting a store fault that lost the write. */
  predicate ExhaustionLost(states: seq<State>, labels: seq<Label>, m: nat, id: JobId) {
    && m < |labels| && m < |states| && labels[m] == SweepFail(Lost(false))
    && states[m].sweep.Exhaust? && states[m].sweep.id == id
  }

  /** Job `id` is finished, unless an earlier exhaustion of it lost its write. */
  ghost predicate FinishedOrLost(states: seq<State>, labels: seq<Label>, k: nat, id: JobId)
    requires k < |states|
  {
    && id in states[k].jobs
    && (Terminal(states[k].jobs[id].row) || exists m :: 0 <= m < k && ExhaustionLost(states, labels, m, id))
  }

  ghost predicate HooksJustified(states: seq<State>, labels: seq<Label>, k: nat)
    requires k < |states|
  {
    && (forall id <- states[k].jobs :: states[k].jobs[id].hook.tasks != [] ==> FinishedOrLost(states, labels, k, id))
    && (states[k].sweep.Tell? ==> FinishedOrLost(states, labels, k, states[k].sweep.id))
  }

  lemma FinishedOrLostStays(cfg: Config, states: seq<State>, labels: seq<Label>, k: nat, id: JobId)
    requires cfg.Valid() && Run(cfg, states, labels) && k < |labels| && FinishedOrLost(states, labels, k, id)
    ensures FinishedOrLost(states, labels, k + 1, id)
  {
    assert StepAt(cfg, states, labels, k);
    RunSound(cfg, states, labels, k);
    StepKeepsJobs(cfg, states[k], labels[k]);
  }

  /** A hook task appears only by a notification of a finished job or by the sweeper. */
  lemma NewHookTask(cfg: Config, now: Time, j: Job, act: Act)
    requires cfg.Valid() && JobOk(j) && CanAct(cfg, now, j, act) && !act.SweepHook?
    requires j.hook.tasks == [] && Effect(cfg, now, j, act).hook.tasks != []
    ensures act.ConvNotify? && Terminal(j.row)
  {
    if act.ConvNotify? {
      assert TaskOk(j.row, j.conv.tasks[act.i]);
    }
  }

  /** A job whose first webhook task appears in a step was finished before it, or is the one
      the sweeper has just exhausted. */
  lemma FirstHookTask(cfg: Config, s: State, l: Label, id: JobId)
    requires cfg.Valid() && Enabled(cfg, s, l) && Sound(s)
    requires id in s.jobs && s.jobs[id].hook.tasks == [] && JobsAfter(cfg, s, l)[id].hook.tasks != []
    ensures Terminal(s.jobs[id].row) || (s.sweep.Tell? && s.sweep.id == id)
  {
    var act := ActOf(s, l).value.1;
    if !act.SweepHook? {
      NewHookTask(cfg, s.now, s.jobs[id], act);
    } else if l.GapEnqueue? {
      assert GapOk(s.jobs, s.sweep.gaps[0]);
    }
  }

  lemma HookTaskJustified(cfg: Config, states: seq<State>, labels: seq<Label>, k: nat, id: JobId)
    requires cfg.Valid() && Run(cfg, states, labels) && k < |labels| && HooksJustified(states, labels, k)
    requires id in states[k + 1].jobs && states[k + 1].jobs[id].hook.tasks != []
    ensures FinishedOrLost(states, labels, k + 1, id)
  {
    var s, l := states[k], labels[k];
    assert StepAt(cfg, states, labels, k);
    RunSound(cfg, states, labels, k);
    if id in s.jobs {
      if s.jobs[id].hook.tasks == [] {
        FirstHookTask(cfg, s, l, id);
      }
      assert FinishedOrLost(states, labels, k, id);
      FinishedOrLostStays(cfg, states, labels, k, id);
    }
  }

  lemma TellAfterExhaust(cfg: Config, s: State, l: Label)
    requires cfg.Valid() && Enabled(cfg, s, l) && !s.sweep.Tell? && SweepAfter(cfg, s, l).Tell?
    ensures l.SweepFail? && s.sweep.Exhaust? && s.sweep.id == SweepAfter(cfg, s, l).id && s.sweep.id in s.jobs
  {
  }

  lemma ExhaustFinishes(cfg: Config, s: State, l: Label)
    requires cfg.Valid() && Enabled(cfg, s, l) && l.SweepFail? && AllOk(s.jobs)
    ensures s.sweep.id in s.jobs && (l.report == Lost(false) || Terminal(JobsAfter(cfg, s, l)[s.sweep.id].row))
  {
    FailedKeeps(l.report, s.jobs[s.sweep.id].row, s.now, ReconcilerExhausted);
  }

  lemma ExhaustedJustified(cfg: Config, states: seq<State>, labels: seq<Label>, k: nat)
    requires cfg.Valid() && Run(cfg, states, labels) && k < |labels| && HooksJustified(states, labels, k)
    requires states[k + 1].sweep.Tell?
    ensures FinishedOrLost(states, labels, k + 1, states[k + 1].sweep.id)
  {
    var s, l := states[k], labels[k];
    assert StepAt(cfg, states, labels, k);
    if s.sweep.Tell? {
      FinishedOrLostStays(cfg, states, labels, k, s.sweep.id);
    } else {
      RunSound(cfg, states, labels, k);
      TellAfterExhaust(cfg, s, l);
      ExhaustFinishes(cfg, s, l);
      assert l.report == Lost(false) ==> ExhaustionLost(states, labels, k, s.sweep.id);
    }
  }

  lemma {:induction false} HooksRun(cfg: Config, states: seq<State>, labels: seq<Label>, k: nat)
    requires cfg.Valid() && Run(cfg, states, labels) && k < |states|
    ensures HooksJustified(states, labels, k)
  {
    if k > 0 {
      HooksRun(cfg, states, labels, k - 1);
      forall id <- states[k].jobs | states[k].jobs[id].hook.tasks != [] ensures FinishedOrLost(states, labels, k, id) {
        HookTaskJustified(cfg, states, labels, k - 1, id);
      }
      if states[k].sweep.Tell? {
        ExhaustedJustified(cfg, states, labels, k - 1);
      }
    }
  }

  /** A webhook task exists only for a job whose committed status is done or failed, in every
      run in which no exhaustion MarkFailed of that job loses its write. */
  lemma WebhooksOnlyForFinishedJobs(cfg: Config, states: seq<State>, labels: seq<Label>, k: nat, id: JobId)
    requires cfg.Valid() && Run(cfg, states, labels) && k < |states| && id in states[k].jobs
    requires forall m :: 0 <= m < k ==> !ExhaustionLost(states, labels, m, id)
    requires states[k].jobs[id].hook.tasks != []
    ensures Terminal(states[k].jobs[id].row)
  {
    HooksRun(cfg, states, labels, k);
  }

  /** Once a delivery row exists, FindWebhookGaps never returns the job again. */
  lemma DeliveredNeverGap(cfg: Config, states: seq<State>, labels: seq<Label>, i: nat, k: nat, id: JobId,
                          gaps: seq<Gap>)
    requires cfg.Valid() && Run(cfg, states, labels) && i <= k < |labels|
    requires id in states[i].jobs && states[i].jobs[id].row.deliveries != []
    requires labels[k] == GapBegin(Some(gaps))
    ensures forall g <- gaps :: g.id != id
  {
    RowsEvolve(cfg, states, labels, i, k);
    assert StepAt(cfg, states, labels, k);
    assert GapScan(cfg, states[k], gaps);
  }
}
