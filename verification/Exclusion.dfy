/** The unique lock does its job: a job that meets the timing hypothesis never has two live tasks
    of one type, and recovery events are written for it only when it had none. */
module Exclusion {
  import opened Wrappers
  import opened Lanes
  import opened Jobs
  import opened Protocol

  /** The hypothesis, on one job: its running attempts are within their timeout, and its live
      tasks have waited in the queue for less than the safety margin altogether. */
  predicate JobTimely(cfg: Config, now: Time, j: Job) {
    Timely(cfg.Conv(j.row.engine), now, j.conv) && Timely(cfg.webhook, now, j.hook)
  }

  predicate TimelyIn(cfg: Config, s: State, id: JobId) {
    id in s.jobs ==> JobTimely(cfg, s.now, s.jobs[id])
  }

  predicate JobExclusive(cfg: Config, j: Job)
    requires cfg.Valid()
  {
    Exclusive(cfg.Conv(j.row.engine), j.conv) && Exclusive(cfg.webhook, j.hook)
  }

  predicate ExclusiveIn(cfg: Config, jobs: map<JobId, Job>, id: JobId)
    requires cfg.Valid()
  {
    id in jobs ==> JobExclusive(cfg, jobs[id])
  }

  lemma GotoExclusive(p: Params, l: Lane, i: nat, pc: Pc)
    requires p.Valid() && Exclusive(p, l) && l.RunsAny(i)
    ensures Exclusive(p, Goto(l, i, pc))
  {
  }

  lemma DropExclusive(p: Params, l: Lane, i: nat)
    requires p.Valid() && Exclusive(p, l) && i < |l.tasks|
    ensures Exclusive(p, Archive(l, i)) && Exclusive(p, Complete(l, i))
  {
  }

  predicate ConvMoves(act: Act) {
    || act.ConvLoad? || act.ConvActivate? || act.ConvEngine? || act.ConvRecord?
    || act.ConvFinish? || act.ConvReject? || act.ConvNotify?
  }

  lemma ConvMovesExclusive(cfg: Config, now: Time, j: Job, act: Act)
    requires cfg.Valid() && CanAct(cfg, now, j, act) && JobExclusive(cfg, j) && ConvMoves(act)
    ensures Exclusive(cfg.Conv(j.row.engine), ConvAfter(cfg, now, j, act))
  {
    var p := cfg.Conv(j.row.engine);
    forall pc ensures Exclusive(p, Goto(j.conv, act.i, pc)) { GotoExclusive(p, j.conv, act.i, pc); }
  }

  lemma ConvStaysExclusive(cfg: Config, now: Time, j: Job, act: Act)
    requires cfg.Valid() && CanAct(cfg, now, j, act)
    requires JobExclusive(cfg, j) && JobTimely(cfg, now, j)
    ensures Exclusive(cfg.Conv(j.row.engine), ConvAfter(cfg, now, j, act))
  {
    var p := cfg.Conv(j.row.engine);
    if act.ConvStart? {
      StartExclusive(p, now, j.conv, act.i);
    } else if act.ConvRetry? {
      RetryExclusive(p, now, j.conv, act.i, act.delay);
    } else if act.ConvLeave? {
      DropExclusive(p, j.conv, act.i);
    } else if ConvMoves(act) {
      ConvMovesExclusive(cfg, now, j, act);
    } else {
      EnqueueExclusive(p, now, j.conv);
    }
  }

  lemma HookStaysExclusive(cfg: Config, now: Time, j: Job, act: Act)
    requires cfg.Valid() && CanAct(cfg, now, j, act)
    requires JobExclusive(cfg, j) && JobTimely(cfg, now, j)
    ensures Exclusive(cfg.webhook, HookAfter(cfg, now, j, act))
  {
    var p := cfg.webhook;
    if act.HookStart? {
      StartExclusive(p, now, j.hook, act.i);
    } else if act.HookRetry? {
      RetryExclusive(p, now, j.hook, act.i, act.delay);
    } else if act.HookLeave? {
      DropExclusive(p, j.hook, act.i);
    } else if act.HookLoad? || act.HookDeliver? || act.HookFlag? {
      forall pc ensures Exclusive(p, Goto(j.hook, act.i, pc)) { GotoExclusive(p, j.hook, act.i, pc); }
    } else {
      EnqueueExclusive(p, now, j.hook);
    }
  }

  lemma EngineFixed(now: Time, j: Job, act: Act)
    ensures RowAfter(now, j, act).engine == j.row.engine
  {
  }

  lemma ActExclusive(cfg: Config, now: Time, j: Job, act: Act)
    requires cfg.Valid() && CanAct(cfg, now, j, act) && JobExclusive(cfg, j) && JobTimely(cfg, now, j)
    ensures JobExclusive(cfg, Effect(cfg, now, j, act))
  {
    ConvStaysExclusive(cfg, now, j, act);
    HookStaysExclusive(cfg, now, j, act);
    EngineFixed(now, j, act);
  }

  lemma StepExclusive(cfg: Config, s: State, l: Label, id: JobId)
    requires cfg.Valid() && Enabled(cfg, s, l) && ExclusiveIn(cfg, s.jobs, id) && TimelyIn(cfg, s, id)
    ensures ExclusiveIn(cfg, JobsAfter(cfg, s, l), id)
  {
    if ActOf(s, l).Some? && ActOf(s, l).value.0 == id {
      ActExclusive(cfg, s.now, s.jobs[id], ActOf(s, l).value.1);
    }
  }

  lemma {:induction false} RunExclusive(cfg: Config, states: seq<State>, labels: seq<Label>, k: nat, id: JobId)
    requires cfg.Valid() && Run(cfg, states, labels) && k < |states|
    requires forall i :: 0 <= i < k ==> TimelyIn(cfg, states[i], id)
    ensures ExclusiveIn(cfg, states[k].jobs, id)
  {
    if k > 0 {
      assert StepAt(cfg, states, labels, k - 1);
      RunExclusive(cfg, states, labels, k - 1, id);
      StepExclusive(cfg, states[k - 1], labels[k - 1], id);
    }
  }

  /** A job that has been timely so far, however late others are, never has two live conversion
      tasks, nor two live webhook tasks; and while it has a live task it holds an unexpired lock,
      so every further enqueue of it is refused. */
  lemma NoDuplicateTask(cfg: Config, states: seq<State>, labels: seq<Label>, k: nat, id: JobId)
    requires cfg.Valid() && Run(cfg, states, labels) && k < |states| && id in states[k].jobs
    requires forall i :: 0 <= i <= k ==> TimelyIn(cfg, states[i], id)
    ensures var j := states[k].jobs[id];
            && |j.conv.tasks| <= 1 && |j.hook.tasks| <= 1
            && (j.conv.tasks != [] ==> j.conv.Locked(states[k].now))
            && (j.hook.tasks != [] ==> j.hook.Locked(states[k].now))
  {
    RunExclusive(cfg, states, labels, k, id);
    var j := states[k].jobs[id];
    assert TimelyIn(cfg, states[k], id);
    EnqueueExclusive(cfg.Conv(j.row.engine), states[k].now, j.conv);
    EnqueueExclusive(cfg.webhook, states[k].now, j.hook);
  }

  // ----- recovery events follow a successful enqueue -----

  /** Step `m` is the sweeper's enqueue of `id`, it succeeded, and `id` had no live task. */
  predicate EnqueuedFree(states: seq<State>, labels: seq<Label>, m: nat, id: JobId) {
    && m < |labels| && m < |states|
    && labels[m] == SweepEnqueue(Honest) && states[m].sweep.Enq? && states[m].sweep.id == id
    && id in states[m].jobs && !states[m].jobs[id].conv.Locked(states[m].now)
    && states[m].jobs[id].conv.tasks == []
  }

  /** From step `m` to state `k` the sweeper has been busy requeueing `id` and nothing else. */
  predicate StillRequeueing(states: seq<State>, m: nat, k: nat, id: JobId) {
    k < |states| && forall i :: m < i <= k ==> states[i].sweep.Requeue? && states[i].sweep.id == id
  }

  lemma EnqueueWasFree(cfg: Config, states: seq<State>, labels: seq<Label>, m: nat, id: JobId)
    requires cfg.Valid() && Run(cfg, states, labels) && m < |labels| && !states[m].sweep.Requeue?
    requires states[m + 1].sweep.Requeue? && states[m + 1].sweep.id == id
    requires forall i :: 0 <= i <= m ==> TimelyIn(cfg, states[i], id)
    ensures EnqueuedFree(states, labels, m, id)
  {
    assert StepAt(cfg, states, labels, m);
    var j := states[m].jobs[id];
    RunExclusive(cfg, states, labels, m, id);
    assert TimelyIn(cfg, states[m], id);
    EnqueueExclusive(cfg.Conv(j.row.engine), states[m].now, j.conv);
  }

  lemma {:induction false} RequeueFollowsEnqueue(cfg: Config, states: seq<State>, labels: seq<Label>, k: nat, id: JobId)
    requires cfg.Valid() && Run(cfg, states, labels) && k < |states|
    requires states[k].sweep.Requeue? && states[k].sweep.id == id
    requires forall i :: 0 <= i < k ==> TimelyIn(cfg, states[i], id)
    ensures exists m :: 0 <= m < k && EnqueuedFree(states, labels, m, id) && StillRequeueing(states, m, k, id)
  {
    if k > 0 {
      assert StepAt(cfg, states, labels, k - 1);
      if states[k - 1].sweep.Requeue? {
        RequeueFollowsEnqueue(cfg, states, labels, k - 1, id);
        var m :| 0 <= m < k - 1 && EnqueuedFree(states, labels, m, id) && StillRequeueing(states, m, k - 1, id);
        assert StillRequeueing(states, m, k, id);
      } else {
        EnqueueWasFree(cfg, states, labels, k - 1, id);
        assert StillRequeueing(states, k - 1, k, id);
      }
    }
  }

  /** Only the sweeper's RequeueStale writes recovery events. */
  lemma RecoveryOnlyByRequeue(now: Time, j: Job, act: Act)
    requires !act.SweepRow?
    ensures Recoveries(RowAfter(now, j, act)) == Recoveries(j.row)
  {
    match act {
      case ConvActivate(_, _) => AppendEvent(j.row.events, Event(Some(j.row.status), Active, NoAction));
      case ConvFinish(_, _, _) => AppendEvent(j.row.events, Event(Some(j.row.status), Done, NoAction));
      case ConvReject(_, _) => AppendEvent(j.row.events, Event(Some(j.row.status), Failed, NoAction));
      case SweepExhaust(_) => AppendEvent(j.row.events, Event(Some(j.row.status), Failed, ReconcilerExhausted));
      case SweepGap(status, _) => AppendEvent(j.row.events, Event(Some(status), status, WebhookGapRecovered));
      case _ =>
    }
  }

  /** Whenever a step adds a recovery event to a job that has been timely, the sweeper had just enqueued that job
      successfully, at a moment when it had no live conversion task, and has done nothing since
      but requeue it. */
  lemma RecoveryOnlyIfStranded(cfg: Config, states: seq<State>, labels: seq<Label>, k: nat, id: JobId)
    requires cfg.Valid() && Run(cfg, states, labels) && k < |labels|
    requires forall i :: 0 <= i <= k ==> TimelyIn(cfg, states[i], id)
    requires id in states[k].jobs && id in states[k + 1].jobs
    requires Recoveries(states[k].jobs[id].row) != Recoveries(states[k + 1].jobs[id].row)
    ensures exists m :: 0 <= m < k && EnqueuedFree(states, labels, m, id) && StillRequeueing(states, m, k, id)
  {
    assert StepAt(cfg, states, labels, k);
    var act := ActOf(states[k], labels[k]).value.1;
    if !act.SweepRow? {
      RecoveryOnlyByRequeue(states[k].now, states[k].jobs[id], act);
    }
    RequeueFollowsEnqueue(cfg, states, labels, k, id);
  }
}
