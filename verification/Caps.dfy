/** How often a job can be recovered and attempted. */
module Caps {
  import opened Wrappers
  import opened Lanes
  import opened Jobs
  import opened Protocol
  import opened Safety
  import opened Exclusion

  // ----- recovery events -----

  /** How many recovery events beyond the cap a lying RequeueStale can cause. */
  function Slack(truthful: bool): nat { if truthful then 0 else 1 }

  predicate CapOk(cfg: Config, s: State, id: JobId, truthful: bool) {
    id in s.jobs ==>
      && Recoveries(s.jobs[id].row) <= cfg.Cap() + Slack(truthful)
      && (s.sweep.Enq? && s.sweep.id == id ==> Recoveries(s.jobs[id].row) < cfg.maxRecoveries)
      && (s.sweep.Requeue? && s.sweep.id == id ==>
            Recoveries(s.jobs[id].row) < cfg.maxRecoveries + (if s.sweep.again then Slack(truthful) else 0))
  }

  /** RequeueStale of `id` commits and reports failure. */
  predicate AckLost(s: State, l: Label, id: JobId) {
    l == SweepRequeue(Lost(true)) && s.sweep.Requeue? && s.sweep.id == id
  }

  lemma RequeueCounts(rep: Report, r: Row)
    ensures var r' := Commit(rep, r, RequeueStale(r));
            Recoveries(r') == Recoveries(r) + (if rep != Lost(false) && RequeueStale(r).Some? then 1 else 0)
  {
    AppendEvent(r.events, Event(Some(r.status), Queued, ReconcilerRecovery));
  }

  lemma JobRecoveries(cfg: Config, s: State, l: Label, id: JobId)
    requires cfg.Valid() && Enabled(cfg, s, l) && id in s.jobs
    ensures id in JobsAfter(cfg, s, l)
    ensures var n, n' := Recoveries(s.jobs[id].row), Recoveries(JobsAfter(cfg, s, l)[id].row);
            if l.SweepRequeue? && s.sweep.id == id
            then n' == n + (if l.report != Lost(false) && RequeueStale(s.jobs[id].row).Some? then 1 else 0)
            else n' == n
  {
    if ActOf(s, l).Some? && ActOf(s, l).value.0 == id {
      if l.SweepRequeue? {
        RequeueCounts(l.report, s.jobs[id].row);
      } else {
        RecoveryOnlyByRequeue(s.now, s.jobs[id], ActOf(s, l).value.1);
      }
    }
  }

  lemma CapStep(cfg: Config, s: State, l: Label, id: JobId, truthful: bool)
    requires cfg.Valid() && Enabled(cfg, s, l) && CapOk(cfg, s, id, truthful) && SweepOk(s.jobs, s.sweep)
    requires truthful ==> !AckLost(s, l, id)
    ensures CapOk(cfg, Step(cfg, s, l), id, truthful)
  {
    if id in s.jobs {
      JobRecoveries(cfg, s, l, id);
    } else if l.Create? {
      NewRowOk(s.now, l.engine, l.callback);
    }
  }

  lemma {:induction false} CapRun(cfg: Config, states: seq<State>, labels: seq<Label>, k: nat, id: JobId,
                                  truthful: bool)
    requires cfg.Valid() && Run(cfg, states, labels) && k < |states|
    requires truthful ==> forall i :: 0 <= i < k ==> !AckLost(states[i], labels[i], id)
    ensures CapOk(cfg, states[k], id, truthful)
  {
    if k > 0 {
      assert StepAt(cfg, states, labels, k - 1);
      CapRun(cfg, states, labels, k - 1, id, truthful);
      RunSound(cfg, states, labels, k - 1);
      CapStep(cfg, states[k - 1], labels[k - 1], id, truthful);
    }
  }

  /** A job is recovered at most MaxRecoveries times when its RequeueStale never commits and
      reports failure, and at most once more than that whatever it reports. */
  lemma RecoveryCap(cfg: Config, states: seq<State>, labels: seq<Label>, k: nat, id: JobId)
    requires cfg.Valid() && Run(cfg, states, labels) && k < |states| && id in states[k].jobs
    ensures Recoveries(states[k].jobs[id].row) <= cfg.Cap() + 1
    ensures (forall i :: 0 <= i < k ==> !AckLost(states[i], labels[i], id)) ==>
              Recoveries(states[k].jobs[id].row) <= cfg.Cap()
  {
    CapRun(cfg, states, labels, k, id, false);
    if forall i :: 0 <= i < k ==> !AckLost(states[i], labels[i], id) {
      CapRun(cfg, states, labels, k, id, true);
    }
  }

  // ----- attempts -----

  /** Attempts a live task can still start. */
  function Left(p: Params, t: Task): int {
    p.maxRetry + 1 - t.retried - (if t.phase.Running? && !t.At(Load) && !t.At(Activate) then 1 else 0)
  }

  function SumLeft(p: Params, ts: seq<Task>): int {
    if ts == [] then 0 else SumLeft(p, ts[..|ts| - 1]) + Left(p, ts[|ts| - 1])
  }

  lemma SumAppend(p: Params, ts: seq<Task>, t: Task)
    ensures SumLeft(p, ts + [t]) == SumLeft(p, ts) + Left(p, t)
  {
    assert (ts + [t])[..|ts|] == ts;
  }

  lemma {:induction false} SumUpdate(p: Params, ts: seq<Task>, i: nat, t: Task)
    requires i < |ts|
    ensures SumLeft(p, ts[i := t]) == SumLeft(p, ts) - Left(p, ts[i]) + Left(p, t)
  {
    var n := |ts| - 1;
    if i == n {
      assert ts[i := t][..n] == ts[..n];
    } else {
      SumUpdate(p, ts[..n], i, t);
      assert ts[i := t][..n] == ts[..n][i := t];
    }
  }

  lemma {:induction false} SumWithout(p: Params, ts: seq<Task>, i: nat)
    requires i < |ts|
    ensures SumLeft(p, Without(ts, i)) == SumLeft(p, ts) - Left(p, ts[i])
  {
    var n := |ts| - 1;
    if i == n {
      assert Without(ts, i) == ts[..n];
    } else {
      SumWithout(p, ts[..n], i);
      assert ts[i + 1..] == ts[..n][i + 1..] + [ts[n]];
      assert Without(ts, i) == Without(ts[..n], i) + [ts[n]];
      SumAppend(p, Without(ts[..n], i), ts[n]);
    }
  }

  predicate WithinRetries(p: Params, ts: seq<Task>) {
    forall i :: 0 <= i < |ts| ==> ts[i].retried <= p.maxRetry
  }

  lemma {:induction false} SumNonNegative(p: Params, ts: seq<Task>)
    requires WithinRetries(p, ts)
    ensures 0 <= SumLeft(p, ts)
  {
    if ts != [] { SumNonNegative(p, ts[..|ts| - 1]); }
  }

  /** Attempts per task of a job. */
  function PerTask(cfg: Config, j: Job): nat { cfg.Conv(j.row.engine).maxRetry + 1 }

  /** Recoveries a job has left; `reserved` is 1 between a recovery's enqueue and its event. */
  function Credit(cfg: Config, j: Job, reserved: nat): nat {
    if Recoveries(j.row) + reserved <= cfg.Cap() then cfg.Cap() - Recoveries(j.row) - reserved else 0
  }

  /** Attempts an unfinished job may still see: those left to its live tasks, those of the API's
      enqueue to come, and those of the recoveries it has left. */
  function Budget(cfg: Config, j: Job, reserved: nat): int {
    if Terminal(j.row) then 0
    else SumLeft(cfg.Conv(j.row.engine), j.conv.tasks)
         + (if j.api then PerTask(cfg, j) else 0)
         + Credit(cfg, j, reserved) * PerTask(cfg, j)
  }

  lemma ReplaceBudget(p: Params, l: Lane, i: nat, t: Task)
    requires WithinRetries(p, l.tasks) && i < |l.tasks| && t.retried <= p.maxRetry
    ensures WithinRetries(p, l.tasks[i := t])
    ensures SumLeft(p, l.tasks[i := t]) == SumLeft(p, l.tasks) - Left(p, l.tasks[i]) + Left(p, t)
  {
    SumUpdate(p, l.tasks, i, t);
  }

  lemma RemoveBudget(p: Params, l: Lane, i: nat)
    requires WithinRetries(p, l.tasks) && i < |l.tasks|
    ensures WithinRetries(p, Without(l.tasks, i))
    ensures SumLeft(p, Without(l.tasks, i)) == SumLeft(p, l.tasks) - Left(p, l.tasks[i])
  {
    SumWithout(p, l.tasks, i);
  }

  predicate ByHandler(act: Act) {
    || act.ConvStart? || act.ConvLoad? || act.ConvActivate? || act.ConvEngine? || act.ConvRecord?
    || act.ConvFinish? || act.ConvReject? || act.ConvNotify? || act.ConvLeave? || act.ConvRetry?
  }

  /** A handler's step replaces its task by one with no more attempts left, or removes it. */
  lemma HandlerLane(cfg: Config, now: Time, j: Job, act: Act)
    requires cfg.Valid() && CanAct(cfg, now, j, act) && ByHandler(act)
    requires WithinRetries(cfg.Conv(j.row.engine), j.conv.tasks)
    ensures var p, ts, ts' := cfg.Conv(j.row.engine), j.conv.tasks, ConvAfter(cfg, now, j, act).tasks;
            && act.i < |ts|
            && (|| (ts' == Without(ts, act.i) && !act.ConvActivate?)
                || (&& |ts'| == |ts| && ts' == ts[act.i := ts'[act.i]] && ts'[act.i].retried <= p.maxRetry
                    && Left(p, ts'[act.i]) <= Left(p, ts[act.i]) - (if act.ConvActivate? then 1 else 0)))
  {
  }

  /** What a step other than an enqueue does to the tasks: it never adds to the attempts left,
      and an attempt takes one away. */
  lemma LaneBudget(cfg: Config, now: Time, j: Job, act: Act)
    requires cfg.Valid() && CanAct(cfg, now, j, act) && !act.SweepConv? && !act.ApiEnqueue?
    requires WithinRetries(cfg.Conv(j.row.engine), j.conv.tasks)
    ensures var p := cfg.Conv(j.row.engine);
            var l' := ConvAfter(cfg, now, j, act);
            WithinRetries(p, l'.tasks)
            && SumLeft(p, l'.tasks) <= SumLeft(p, j.conv.tasks) - (if act.ConvActivate? then 1 else 0)
  {
    if ByHandler(act) {
      var p, ts, ts' := cfg.Conv(j.row.engine), j.conv.tasks, ConvAfter(cfg, now, j, act).tasks;
      HandlerLane(cfg, now, j, act);
      if ts' == Without(ts, act.i) {
        RemoveBudget(p, j.conv, act.i);
      } else {
        ReplaceBudget(p, j.conv, act.i, ts'[act.i]);
      }
    }
  }

  lemma EnqueueBudget(p: Params, now: Time, l: Lane, rep: Report)
    requires p.Valid() && WithinRetries(p, l.tasks)
    ensures var l' := EnqueueAs(p, now, l, rep);
            WithinRetries(p, l'.tasks) && SumLeft(p, l'.tasks) <= SumLeft(p, l.tasks) + p.maxRetry + 1
    ensures l.Locked(now) || rep == Lost(false) ==> EnqueueAs(p, now, l, rep) == l
  {
    SumAppend(p, l.tasks, Task(l.nextId, now, 0, 0, Waiting(now)));
  }

  lemma AttemptsByActivation(now: Time, j: Job, act: Act)
    ensures var r' := RowAfter(now, j, act);
            r'.attempts <= j.row.attempts + (if act.ConvActivate? then 1 else 0)
  {
  }

  lemma ActBudget(cfg: Config, now: Time, j: Job, act: Act, reserved: nat)
    requires cfg.Valid() && JobOk(j) && CanAct(cfg, now, j, act)
    requires !act.SweepConv? && !act.SweepRow? && !act.SweepGap?
    requires WithinRetries(cfg.Conv(j.row.engine), j.conv.tasks)
    ensures var j' := Effect(cfg, now, j, act);
            && WithinRetries(cfg.Conv(j.row.engine), j'.conv.tasks)
            && (!Terminal(j'.row) ==>
                  && !Terminal(j.row)
                  && j'.row.attempts + Budget(cfg, j', reserved) <= j.row.attempts + Budget(cfg, j, reserved))
  {
    EffectKeepsJob(cfg, now, j, act);
    AttemptsByActivation(now, j, act);
    RecoveryOnlyByRequeue(now, j, act);
    EngineFixed(now, j, act);
    if act.ApiEnqueue? {
      EnqueueBudget(cfg.Conv(j.row.engine), now, j.conv, act.report);
    } else {
      LaneBudget(cfg, now, j, act);
    }
    SameCredit(cfg, j, Effect(cfg, now, j, act), reserved);
  }

  lemma SameCredit(cfg: Config, j: Job, j': Job, reserved: nat)
    requires j'.row.engine == j.row.engine && Recoveries(j'.row) == Recoveries(j.row)
    ensures PerTask(cfg, j') == PerTask(cfg, j)
    ensures Credit(cfg, j', reserved) * PerTask(cfg, j') == Credit(cfg, j, reserved) * PerTask(cfg, j)
  {
  }

  // ----- over runs -----

  /** A recovery of `id` goes uncounted: a task is enqueued and reported as not, or one has been
      enqueued and the sweeper dies before its event, or both tries to record it are lost. */
  predicate Uncounted(s: State, l: Label, id: JobId) {
    || (l == SweepEnqueue(Lost(true)) && s.sweep.Enq? && s.sweep.id == id)
    || (l.SweepCrash? && s.sweep.Requeue? && s.sweep.id == id)
    || (l == SweepRequeue(Lost(false)) && s.sweep.Requeue? && s.sweep.again && s.sweep.id == id)
  }

  function Surplus(s: State, l: Label, id: JobId): nat { if Uncounted(s, l, id) then 1 else 0 }

  /** How many recoveries of `id` have gone uncounted in the first `k` steps. */
  function UncountedIn(states: seq<State>, labels: seq<Label>, k: nat, id: JobId): nat
    requires k <= |labels| <= |states|
  {
    if k == 0 then 0 else UncountedIn(states, labels, k - 1, id) + Surplus(states[k - 1], labels[k - 1], id)
  }

  function Reserved(s: State, id: JobId): nat { if s.sweep.Requeue? && s.sweep.id == id then 1 else 0 }

  function Limit(cfg: Config, j: Job, extra: nat): nat { (cfg.Cap() + 1 + extra) * PerTask(cfg, j) }

  predicate JobBudgetOk(cfg: Config, j: Job, reserved: nat, extra: nat) {
    && WithinRetries(cfg.Conv(j.row.engine), j.conv.tasks)
    && j.row.attempts + Budget(cfg, j, reserved) <= Limit(cfg, j, extra)
  }

  /** Attempts plus budget grow only by an uncounted recovery, and then by one task's attempts. */
  predicate Spends(cfg: Config, j: Job, reserved: nat, j': Job, reserved': nat, surplus: nat) {
    && j'.row.engine == j.row.engine
    && WithinRetries(cfg.Conv(j.row.engine), j'.conv.tasks)
    && (Terminal(j.row) ==> Terminal(j'.row))
    && j.row.attempts <= j'.row.attempts
    && j'.row.attempts + Budget(cfg, j', reserved')
       <= j.row.attempts + Budget(cfg, j, reserved) + surplus * PerTask(cfg, j)
  }

  lemma CreditNonNegative(x: int, c: int)
    requires 0 <= x && 0 <= c
    ensures 0 <= x * c
  {
  }

  lemma LessCredit(x: int, y: int, c: nat)
    requires x <= y
    ensures x * c <= y * c
  {
  }

  lemma BudgetNonNegative(cfg: Config, j: Job, reserved: nat)
    requires WithinRetries(cfg.Conv(j.row.engine), j.conv.tasks)
    ensures 0 <= Budget(cfg, j, reserved)
  {
    SumNonNegative(cfg.Conv(j.row.engine), j.conv.tasks);
    CreditNonNegative(Credit(cfg, j, reserved), PerTask(cfg, j));
  }

  lemma CreateBudget(cfg: Config, now: Time, engine: Engine, callback: bool, extra: nat)
    requires cfg.Valid()
    ensures JobBudgetOk(cfg, Job(NewRow(now, engine, callback), EMPTY_LANE, EMPTY_LANE, true), 0, extra)
  {
    NewRowOk(now, engine, callback);
    var j := Job(NewRow(now, engine, callback), EMPTY_LANE, EMPTY_LANE, true);
    assert (cfg.Cap() + 1) * PerTask(cfg, j) == cfg.Cap() * PerTask(cfg, j) + PerTask(cfg, j);
    LessCredit(cfg.Cap() + 1, cfg.Cap() + 1 + extra, PerTask(cfg, j));
  }

  /** Any act but the sweeper's recovery and gap calls. */
  lemma PlainSpends(cfg: Config, now: Time, j: Job, act: Act, reserved: nat)
    requires cfg.Valid() && JobOk(j) && CanAct(cfg, now, j, act)
    requires !act.SweepConv? && !act.SweepRow? && !act.SweepGap?
    requires WithinRetries(cfg.Conv(j.row.engine), j.conv.tasks)
    ensures Spends(cfg, j, reserved, Effect(cfg, now, j, act), reserved, 0)
  {
    EffectKeepsJob(cfg, now, j, act);
    ActBudget(cfg, now, j, act, reserved);
    EngineFixed(now, j, act);
    if Terminal(RowAfter(now, j, act)) {
      TerminalAttempts(cfg, now, j, act);
      BudgetNonNegative(cfg, j, reserved);
    }
  }

  /** Finishing a job, or acting on a finished one, starts no attempt. */
  lemma TerminalAttempts(cfg: Config, now: Time, j: Job, act: Act)
    requires cfg.Valid() && JobOk(j) && CanAct(cfg, now, j, act)
    requires Terminal(RowAfter(now, j, act))
    ensures RowAfter(now, j, act).attempts == j.row.attempts
  {
  }

  /** The recovery's enqueue: the task's attempts are paid for by a recovery credit, unless the
      sweeper does not know of the task. */
  lemma EnqueueSpends(cfg: Config, now: Time, j: Job, rep: Report, reserved: nat)
    requires cfg.Valid() && CanAct(cfg, now, j, SweepConv(rep))
    requires WithinRetries(cfg.Conv(j.row.engine), j.conv.tasks) && Recoveries(j.row) < cfg.Cap()
    requires reserved == if rep.Honest? && !j.conv.Locked(now) then 1 else 0
    ensures Spends(cfg, j, 0, Effect(cfg, now, j, SweepConv(rep)), reserved, if rep == Lost(true) then 1 else 0)
  {
    EnqueueBudget(cfg.Conv(j.row.engine), now, j.conv, rep);
    var j', surplus := Effect(cfg, now, j, SweepConv(rep)), if rep == Lost(true) then 1 else 0;
    TaskPaid(cfg, j, j', reserved, surplus);
  }

  lemma TaskPaid(cfg: Config, j: Job, j': Job, reserved: nat, surplus: nat)
    requires j'.row == j.row && j'.api == j.api && reserved + surplus <= 1 && Recoveries(j.row) < cfg.Cap()
    requires var p := cfg.Conv(j.row.engine);
             && WithinRetries(p, j'.conv.tasks)
             && SumLeft(p, j'.conv.tasks)
                <= SumLeft(p, j.conv.tasks) + (if reserved + surplus == 1 then PerTask(cfg, j) else 0)
    ensures Spends(cfg, j, 0, j', reserved, surplus)
  {
    assert Credit(cfg, j', reserved) == Credit(cfg, j, 0) - reserved;
    Distribute(Credit(cfg, j, 0), reserved, PerTask(cfg, j));
    if surplus == 1 {
      assert surplus * PerTask(cfg, j) == PerTask(cfg, j);
    }
  }

  lemma Distribute(credit: nat, reserved: nat, c: nat)
    requires reserved <= 1 <= credit
    ensures (credit - reserved) * c == credit * c - (if reserved == 1 then c else 0)
  {
    assert (credit - 1) * c == credit * c - c;
  }

  lemma CreditStep(cfg: Config, j: Job, reserved: nat, j': Job, reserved': nat, surplus: nat)
    requires j'.row.engine == j.row.engine && j'.conv == j.conv && j'.api == j.api
    requires Terminal(j.row) <==> Terminal(j'.row)
    requires j'.row.attempts == j.row.attempts && WithinRetries(cfg.Conv(j.row.engine), j.conv.tasks)
    requires Credit(cfg, j', reserved') <= Credit(cfg, j, reserved) + surplus
    ensures Spends(cfg, j, reserved, j', reserved', surplus)
  {
    LessCredit(Credit(cfg, j', reserved'), Credit(cfg, j, reserved) + surplus, PerTask(cfg, j));
    assert (Credit(cfg, j, reserved) + surplus) * PerTask(cfg, j)
        == Credit(cfg, j, reserved) * PerTask(cfg, j) + surplus * PerTask(cfg, j);
    CreditNonNegative(surplus, PerTask(cfg, j));
  }

  /** Recording the recovery turns the reserved credit into an event; a lost second try frees it. */
  lemma RequeueSpends(cfg: Config, now: Time, j: Job, rep: Report, again: bool, reserved: nat)
    requires cfg.Valid() && JobOk(j) && WithinRetries(cfg.Conv(j.row.engine), j.conv.tasks)
    requires reserved == if Seen(rep, RequeueStale(j.row)) || again then 0 else 1
    ensures var surplus := if again && rep == Lost(false) then 1 else 0;
            Spends(cfg, j, 1, Effect(cfg, now, j, SweepRow(rep)), reserved, surplus)
  {
    RequeueOk(j.row);
    var j', surplus := Effect(cfg, now, j, SweepRow(rep)), if again && rep == Lost(false) then 1 else 0;
    if Terminal(j.row) {
      CreditNonNegative(surplus, PerTask(cfg, j));
    } else {
      CreditStep(cfg, j, 1, j', reserved, surplus);
    }
  }

  lemma GapSpends(cfg: Config, now: Time, j: Job, status: Status, rep: Report, reserved: nat)
    requires cfg.Valid() && JobOk(j) && Terminal(j.row) && status == j.row.status
    requires WithinRetries(cfg.Conv(j.row.engine), j.conv.tasks)
    ensures Spends(cfg, j, reserved, Effect(cfg, now, j, SweepGap(status, rep)), reserved, 0)
  {
    RecordGapOk(j.row, status);
  }

  /** The sweeper leaves a job alone, or dies over it. */
  lemma IdleSpends(cfg: Config, s: State, l: Label, id: JobId)
    requires cfg.Valid() && Enabled(cfg, s, l) && id in s.jobs
    requires WithinRetries(cfg.Conv(s.jobs[id].row.engine), s.jobs[id].conv.tasks)
    requires JobsAfter(cfg, s, l)[id] == s.jobs[id] && !l.SweepEnqueue? && !l.SweepRequeue?
    ensures Spends(cfg, s.jobs[id], Reserved(s, id), s.jobs[id], Reserved(Step(cfg, s, l), id), Surplus(s, l, id))
  {
    CreditStep(cfg, s.jobs[id], Reserved(s, id), s.jobs[id], Reserved(Step(cfg, s, l), id), Surplus(s, l, id));
  }

  lemma ReservedElsewhere(cfg: Config, s: State, l: Label, id: JobId)
    requires cfg.Valid() && Enabled(cfg, s, l) && id in s.jobs && !l.SweepCrash?
    requires (l.SweepEnqueue? || l.SweepRequeue?) ==> s.sweep.id != id
    ensures Reserved(Step(cfg, s, l), id) == Reserved(s, id) && Surplus(s, l, id) == 0
  {
  }

  lemma ActSpends(cfg: Config, s: State, l: Label, id: JobId)
    requires cfg.Valid() && Enabled(cfg, s, l) && Sound(s) && CapOk(cfg, s, id, false)
    requires id in s.jobs && WithinRetries(cfg.Conv(s.jobs[id].row.engine), s.jobs[id].conv.tasks)
    requires ActOf(s, l).Some? && ActOf(s, l).value.0 == id
    ensures var s' := Step(cfg, s, l);
            Spends(cfg, s.jobs[id], Reserved(s, id), s'.jobs[id], Reserved(s', id), Surplus(s, l, id))
  {
    var j, act := s.jobs[id], ActOf(s, l).value.1;
    if l.SweepEnqueue? {
      EnqueueSpends(cfg, s.now, j, l.report, Reserved(Step(cfg, s, l), id));
    } else if l.SweepRequeue? {
      RequeueSpends(cfg, s.now, j, l.report, s.sweep.again, Reserved(Step(cfg, s, l), id));
    } else {
      ReservedElsewhere(cfg, s, l, id);
      if l.GapRecord? {
        assert GapOk(s.jobs, s.sweep.gap);
        GapSpends(cfg, s.now, j, s.sweep.gap.status, l.report, Reserved(s, id));
      } else {
        PlainSpends(cfg, s.now, j, act, Reserved(s, id));
      }
    }
  }

  /** One step of anyone, under any fault: attempts plus budget grow only by an uncounted recovery. */
  lemma StepSpends(cfg: Config, s: State, l: Label, id: JobId)
    requires cfg.Valid() && Enabled(cfg, s, l) && Sound(s) && CapOk(cfg, s, id, false)
    requires id in s.jobs && WithinRetries(cfg.Conv(s.jobs[id].row.engine), s.jobs[id].conv.tasks)
    ensures id in JobsAfter(cfg, s, l)
    ensures var s' := Step(cfg, s, l);
            Spends(cfg, s.jobs[id], Reserved(s, id), s'.jobs[id], Reserved(s', id), Surplus(s, l, id))
  {
    if ActOf(s, l).Some? && ActOf(s, l).value.0 == id {
      ActSpends(cfg, s, l, id);
    } else if l.SweepCrash? {
      IdleSpends(cfg, s, l, id);
    } else {
      ReservedElsewhere(cfg, s, l, id);
      CreditStep(cfg, s.jobs[id], Reserved(s, id), s.jobs[id], Reserved(s, id), 0);
    }
  }

  lemma BudgetStays(cfg: Config, j: Job, reserved: nat, j': Job, reserved': nat, extra: nat, surplus: nat)
    requires JobBudgetOk(cfg, j, reserved, extra) && Spends(cfg, j, reserved, j', reserved', surplus)
    ensures JobBudgetOk(cfg, j', reserved', extra + surplus)
  {
    assert (cfg.Cap() + 1 + extra + surplus) * PerTask(cfg, j)
        == (cfg.Cap() + 1 + extra) * PerTask(cfg, j) + surplus * PerTask(cfg, j);
  }

  lemma BudgetStep(cfg: Config, s: State, l: Label, id: JobId, extra: nat)
    requires cfg.Valid() && Enabled(cfg, s, l) && Sound(s) && CapOk(cfg, s, id, false)
    requires id in s.jobs && JobBudgetOk(cfg, s.jobs[id], Reserved(s, id), extra)
    ensures id in JobsAfter(cfg, s, l)
    ensures JobBudgetOk(cfg, JobsAfter(cfg, s, l)[id], Reserved(Step(cfg, s, l), id), extra + Surplus(s, l, id))
  {
    StepSpends(cfg, s, l, id);
    var s' := Step(cfg, s, l);
    BudgetStays(cfg, s.jobs[id], Reserved(s, id), s'.jobs[id], Reserved(s', id), extra, Surplus(s, l, id));
  }

  lemma CreateStep(cfg: Config, s: State, l: Label, id: JobId, extra: nat)
    requires cfg.Valid() && Enabled(cfg, s, l) && Sound(s) && id !in s.jobs && id in JobsAfter(cfg, s, l)
    ensures JobBudgetOk(cfg, JobsAfter(cfg, s, l)[id], Reserved(Step(cfg, s, l), id), extra)
  {
    CreateBudget(cfg, s.now, l.engine, l.callback, extra);
    assert Reserved(Step(cfg, s, l), id) == 0;
  }

  lemma BudgetNext(cfg: Config, states: seq<State>, labels: seq<Label>, k: nat, id: JobId, extra: nat)
    requires cfg.Valid() && Run(cfg, states, labels) && k < |labels| && id in states[k].jobs
    requires JobBudgetOk(cfg, states[k].jobs[id], Reserved(states[k], id), extra)
    ensures id in states[k + 1].jobs
    ensures var surplus := Surplus(states[k], labels[k], id);
            JobBudgetOk(cfg, states[k + 1].jobs[id], Reserved(states[k + 1], id), extra + surplus)
  {
    assert StepAt(cfg, states, labels, k);
    RunSound(cfg, states, labels, k);
    CapRun(cfg, states, labels, k, id, false);
    BudgetStep(cfg, states[k], labels[k], id, extra);
  }

  lemma {:induction false} BudgetRun(cfg: Config, states: seq<State>, labels: seq<Label>, k: nat, id: JobId)
    requires cfg.Valid() && Run(cfg, states, labels) && k < |states| && id in states[k].jobs
    ensures JobBudgetOk(cfg, states[k].jobs[id], Reserved(states[k], id), UncountedIn(states, labels, k, id))
  {
    if k > 0 {
      if id in states[k - 1].jobs {
        BudgetRun(cfg, states, labels, k - 1, id);
        BudgetNext(cfg, states, labels, k - 1, id, UncountedIn(states, labels, k - 1, id));
      } else {
        assert StepAt(cfg, states, labels, k - 1);
        RunSound(cfg, states, labels, k - 1);
        CreateStep(cfg, states[k - 1], labels[k - 1], id, UncountedIn(states, labels, k, id));
      }
    }
  }

  /** A job is attempted at most (MaxRecoveries+1)*(maxRetry+1) times, and maxRetry+1 times more
      for each of its recoveries that went uncounted, whatever anybody does and whatever fails. */
  lemma AttemptsBounded(cfg: Config, states: seq<State>, labels: seq<Label>, k: nat, id: JobId)
    requires cfg.Valid() && Run(cfg, states, labels) && k < |states| && id in states[k].jobs
    ensures var row, uncounted := states[k].jobs[id].row, UncountedIn(states, labels, k, id);
            row.attempts <= (cfg.Cap() + 1 + uncounted) * (cfg.Conv(row.engine).maxRetry + 1)
  {
    BudgetRun(cfg, states, labels, k, id);
    BudgetNonNegative(cfg, states[k].jobs[id], Reserved(states[k], id));
  }

  function JobMeasure(cfg: Config, j: Job, reserved: nat): int {
    if Terminal(j.row) then 0 else Budget(cfg, j, reserved) + cfg.Cap() + 1 - Recoveries(j.row)
  }

  function Measure(cfg: Config, s: State, id: JobId): int
    requires id in s.jobs
  {
    JobMeasure(cfg, s.jobs[id], Reserved(s, id))
  }

  lemma MeasureFollows(cfg: Config, j: Job, reserved: nat, j': Job, reserved': nat, surplus: nat)
    requires WithinRetries(cfg.Conv(j.row.engine), j.conv.tasks) && Spends(cfg, j, reserved, j', reserved', surplus)
    requires Recoveries(j.row) <= Recoveries(j'.row) <= cfg.Cap() + 1
    requires surplus > 0 || Terminal(j'.row) ==> j'.row.attempts == j.row.attempts
    requires surplus > 0 || Terminal(j'.row) ==> Recoveries(j'.row) == Recoveries(j.row)
    ensures 0 <= JobMeasure(cfg, j', reserved') <= JobMeasure(cfg, j, reserved) + surplus * PerTask(cfg, j)
    ensures j'.row.attempts > j.row.attempts || Recoveries(j'.row) > Recoveries(j.row) ==>
              JobMeasure(cfg, j', reserved') < JobMeasure(cfg, j, reserved)
  {
    BudgetNonNegative(cfg, j, reserved);
    BudgetNonNegative(cfg, j', reserved');
    CreditNonNegative(surplus, PerTask(cfg, j));
  }

  /** The bound's measure: never negative, raised only by an uncounted recovery and then by one
      task's attempts, strictly lowered by every attempt and every recovery. */
  lemma MeasureLowered(cfg: Config, states: seq<State>, labels: seq<Label>, k: nat, id: JobId)
    requires cfg.Valid() && Run(cfg, states, labels) && k < |labels| && id in states[k].jobs
    ensures id in states[k + 1].jobs
    ensures 0 <= Measure(cfg, states[k + 1], id)
         <= Measure(cfg, states[k], id) + Surplus(states[k], labels[k], id) * PerTask(cfg, states[k].jobs[id])
    ensures var r, r' := states[k].jobs[id].row, states[k + 1].jobs[id].row;
            r'.attempts > r.attempts || Recoveries(r') > Recoveries(r) ==>
              Measure(cfg, states[k + 1], id) < Measure(cfg, states[k], id)
  {
    assert StepAt(cfg, states, labels, k);
    RunSound(cfg, states, labels, k);
    BudgetRun(cfg, states, labels, k, id);
    CapRun(cfg, states, labels, k, id, false);
    CapRun(cfg, states, labels, k + 1, id, false);
    MeasureStep(cfg, states[k], labels[k], id);
  }

  lemma MeasureStep(cfg: Config, s: State, l: Label, id: JobId)
    requires cfg.Valid() && Enabled(cfg, s, l) && Sound(s)
    requires CapOk(cfg, s, id, false) && CapOk(cfg, Step(cfg, s, l), id, false)
    requires id in s.jobs && WithinRetries(cfg.Conv(s.jobs[id].row.engine), s.jobs[id].conv.tasks)
    ensures id in JobsAfter(cfg, s, l)
    ensures 0 <= Measure(cfg, Step(cfg, s, l), id) <= Measure(cfg, s, id) + Surplus(s, l, id) * PerTask(cfg, s.jobs[id])
    ensures var r, r' := s.jobs[id].row, JobsAfter(cfg, s, l)[id].row;
            r'.attempts > r.attempts || Recoveries(r') > Recoveries(r) ==>
              Measure(cfg, Step(cfg, s, l), id) < Measure(cfg, s, id)
  {
    StepSpends(cfg, s, l, id);
    JobRecoveries(cfg, s, l, id);
    if Uncounted(s, l, id) { UncountedIsQuiet(cfg, s, l, id); }
    if Terminal(JobsAfter(cfg, s, l)[id].row) { FinishingIsQuiet(cfg, s, l, id); }
    var s' := Step(cfg, s, l);
    MeasureFollows(cfg, s.jobs[id], Reserved(s, id), s'.jobs[id], Reserved(s', id), Surplus(s, l, id));
  }

  /** An uncounted recovery is neither an attempt nor an event. */
  lemma UncountedIsQuiet(cfg: Config, s: State, l: Label, id: JobId)
    requires cfg.Valid() && Enabled(cfg, s, l) && id in s.jobs && Uncounted(s, l, id)
    ensures id in JobsAfter(cfg, s, l) && JobsAfter(cfg, s, l)[id].row == s.jobs[id].row
  {
  }

  /** A step into or within a terminal status adds neither an attempt nor a recovery. */
  lemma FinishingIsQuiet(cfg: Config, s: State, l: Label, id: JobId)
    requires cfg.Valid() && Enabled(cfg, s, l) && Sound(s) && id in s.jobs
    requires Terminal(JobsAfter(cfg, s, l)[id].row)
    ensures JobsAfter(cfg, s, l)[id].row.attempts == s.jobs[id].row.attempts
    ensures Recoveries(JobsAfter(cfg, s, l)[id].row) == Recoveries(s.jobs[id].row)
  {
    JobRecoveries(cfg, s, l, id);
    RequeueOk(s.jobs[id].row);
    if ActOf(s, l).Some? && ActOf(s, l).value.0 == id {
      TerminalAttempts(cfg, s.now, s.jobs[id], ActOf(s, l).value.1);
    }
  }
}
