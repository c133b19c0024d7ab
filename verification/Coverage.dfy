/** A sweep whose calls all succeed leaves no stale job and no webhook gap unattended, however
    the rest of the system interleaves with it. */
module Coverage {
  import opened Wrappers
  import opened Lanes
  import opened Jobs
  import opened Protocol
  import opened Safety

  /** The call this label makes, if it is the sweeper's, succeeds. */
  predicate CallSucceeds(l: Label) {
    match l
    case SweepCount(ok) => ok
    case SweepGet(ok) => ok
    case SweepEnqueue(rep) => rep.Honest?
    case SweepRequeue(rep) => rep.Honest?
    case SweepFail(rep) => rep.Honest?
    case SweepTell(rep) => rep.Honest?
    case GapEnqueue(rep) => rep.Honest?
    case GapRecord(rep) => rep.Honest?
    case SweepCrash => false
    case _ => true
  }

  /** The job is finished, or a conversion lock protects it, or no queue serves its engine. */
  predicate Settled(s: State, id: JobId) {
    id in s.jobs && (Terminal(s.jobs[id].row) || s.jobs[id].conv.Locked(s.now) || !Routable(s.jobs[id].row.engine))
  }

  predicate HookHeld(s: State, id: JobId) {
    id in s.jobs && s.jobs[id].hook.Locked(s.now)
  }

  /** The stale jobs the sweeper has yet to settle. */
  function Pending(sweep: Sweep): seq<JobId> {
    match sweep
    case Count(todo) => todo
    case Enq(id, todo) => [id] + todo
    case Get(id, todo) => [id] + todo
    case Exhaust(id, _, todo) => [id] + todo
    case Requeue(_, _, todo) => todo
    case Tell(_, todo) => todo
    case _ => []
  }

  function PendingGaps(sweep: Sweep): seq<Gap> {
    match sweep
    case Gaps(gaps) => gaps
    case GapLog(_, gaps) => gaps
    case _ => []
  }

  // ----- what a scan finds -----

  lemma ActiveWasStarted(r: Row)
    requires RowOk(r) && r.status == Active
    ensures r.startedAt.Some?
  {
    assert r.events[|r.events| - 1].to == Active;
  }

  /** FindStale returns exactly the jobs queued for longer than one threshold and the jobs active for
      longer than the other since their first activation, and no finished job. */
  lemma ScanExact(cfg: Config, states: seq<State>, labels: seq<Label>, k: nat, found: seq<JobId>, id: JobId)
    requires cfg.Valid() && Run(cfg, states, labels) && k < |labels| && labels[k] == SweepBegin(Some(found))
    ensures id in found ==> id in states[k].jobs
    ensures id in states[k].jobs ==>
              var r, now := states[k].jobs[id].row, states[k].now;
              match r.status
              case Queued => id in found <==> now - r.createdAt > cfg.queuedStaleAfter
              case Active => r.startedAt.Some? && (id in found <==> now - r.startedAt.value > cfg.activeStaleAfter)
              case _ => id !in found
  {
    assert StepAt(cfg, states, labels, k);
    assert StaleScan(cfg, states[k], found);
    RunSound(cfg, states, labels, k);
    if id in states[k].jobs && states[k].jobs[id].row.status == Active {
      ActiveWasStarted(states[k].jobs[id].row);
    }
  }

  /** FindWebhookGaps returns exactly the jobs finished for longer than the threshold that have a
      callback and no delivery row, each with its status. */
  lemma GapsExact(cfg: Config, states: seq<State>, labels: seq<Label>, k: nat, gaps: seq<Gap>, g: Gap)
    requires cfg.Valid() && Run(cfg, states, labels) && k < |labels| && labels[k] == GapBegin(Some(gaps))
    ensures g in gaps <==>
              && g.id in states[k].jobs
              && var r := states[k].jobs[g.id].row;
                 && g.status == r.status && (r.status == Done || r.status == Failed)
                 && r.callback && |r.deliveries| == 0
                 && r.finishedAt.Some? && states[k].now - r.finishedAt.value > cfg.activeStaleAfter
  {
    assert StepAt(cfg, states, labels, k);
    assert GapScan(cfg, states[k], gaps);
  }

  lemma EnqueueLocks(p: Params, now: Time, l: Lane)
    requires p.Valid()
    ensures Enqueue(p, now, l).Locked(now)
  {
    TtlPositive(p);
  }

  lemma CountStep(cfg: Config, s: State, l: Label, id: JobId)
    requires cfg.Valid() && Enabled(cfg, s, l) && l == SweepCount(true) && id in s.sweep.todo
    ensures id in Pending(SweepAfter(cfg, s, l)) || Settled(s, id)
  {
    if id != s.sweep.todo[0] { assert id in s.sweep.todo[1..]; }
  }

  lemma EnqueueStep(cfg: Config, s: State, l: Label)
    requires cfg.Valid() && Enabled(cfg, s, l) && l == SweepEnqueue(Honest)
    ensures Settled(Step(cfg, s, l), s.sweep.id)
  {
    EnqueueLocks(cfg.Conv(s.jobs[s.sweep.id].row.engine), s.now, s.jobs[s.sweep.id].conv);
  }

  lemma FailStep(cfg: Config, s: State, l: Label)
    requires cfg.Valid() && Enabled(cfg, s, l) && l == SweepFail(Honest)
    requires s.sweep.id in s.jobs && RowOk(s.jobs[s.sweep.id].row)
    ensures Settled(Step(cfg, s, l), s.sweep.id)
  {
    FailedKeeps(l.report, s.jobs[s.sweep.id].row, s.now, ReconcilerExhausted);
  }

  lemma PendingUntouched(cfg: Config, s: State, l: Label)
    requires cfg.Valid() && Enabled(cfg, s, l) && CallSucceeds(l) && !l.SweepBegin? && !l.GapBegin?
    requires !l.SweepCount? && !l.SweepEnqueue? && !l.SweepFail?
    ensures Pending(SweepAfter(cfg, s, l)) == Pending(s.sweep)
  {
  }

  /** A pending job leaves the pending list only by being settled. */
  lemma PendingStep(cfg: Config, s: State, l: Label, id: JobId)
    requires cfg.Valid() && Enabled(cfg, s, l) && Sound(s) && CallSucceeds(l) && !l.SweepBegin? && !l.GapBegin?
    requires id in Pending(s.sweep)
    ensures id in Pending(SweepAfter(cfg, s, l)) || Settled(Step(cfg, s, l), id)
  {
    if l.SweepCount? {
      CountStep(cfg, s, l, id);
    } else if l.SweepEnqueue? {
      EnqueueStep(cfg, s, l);
    } else if l.SweepFail? {
      FailStep(cfg, s, l);
    } else {
      PendingUntouched(cfg, s, l);
    }
  }

  /** Step `m` is the one that takes the job off the sweeper's list, and leaves it settled. */
  predicate SettledBy(states: seq<State>, m: nat, id: JobId) {
    && m + 1 < |states| && id in Pending(states[m].sweep) && id !in Pending(states[m + 1].sweep)
    && Settled(states[m + 1], id)
  }

  ghost predicate SettledBetween(states: seq<State>, a: nat, i: nat, id: JobId) {
    exists m :: a < m < i && SettledBy(states, m, id)
  }

  lemma {:induction false} SweepProgress(cfg: Config, states: seq<State>, labels: seq<Label>, a: nat, i: nat,
                                         found: seq<JobId>, id: JobId)
    requires cfg.Valid() && Run(cfg, states, labels) && a < i < |states|
    requires labels[a] == SweepBegin(Some(found)) && id in found
    requires forall m :: a < m < i ==> CallSucceeds(labels[m]) && !labels[m].GapBegin? && !labels[m].SweepBegin?
    ensures id in Pending(states[i].sweep) || SettledBetween(states, a, i, id)
  {
    assert StepAt(cfg, states, labels, i - 1);
    if a + 1 < i {
      SweepProgress(cfg, states, labels, a, i - 1, found, id);
      if id in Pending(states[i - 1].sweep) {
        RunSound(cfg, states, labels, i - 1);
        PendingStep(cfg, states[i - 1], labels[i - 1], id);
        assert id in Pending(states[i].sweep) || SettledBy(states, i - 1, id);
      }
    }
  }

  /** Every job a sweep found stale is, by the time the sweep turns to the webhook gaps, handled,
      and the step that handled it left it finished, locked by a live or fresh conversion task, or
      known to have no queue. */
  lemma StaleJobsSettled(cfg: Config, states: seq<State>, labels: seq<Label>, a: nat, b: nat, found: seq<JobId>,
                         id: JobId)
    requires cfg.Valid() && Run(cfg, states, labels) && a < b < |labels|
    requires labels[a] == SweepBegin(Some(found)) && labels[b].GapBegin?
    requires forall m :: a < m < b ==> CallSucceeds(labels[m]) && !labels[m].GapBegin? && !labels[m].SweepBegin?
    requires id in states[a].jobs
    requires var r, now := states[a].jobs[id].row, states[a].now;
             || (r.status == Queued && now - r.createdAt > cfg.queuedStaleAfter)
             || (r.status == Active && r.startedAt.Some? && now - r.startedAt.value > cfg.activeStaleAfter)
    ensures exists m :: a < m < b && SettledBy(states, m, id)
  {
    assert StepAt(cfg, states, labels, a) && StepAt(cfg, states, labels, b);
    ScanExact(cfg, states, labels, a, found, id);
    SweepProgress(cfg, states, labels, a, b, found, id);
  }

  lemma PendingGapStep(cfg: Config, s: State, l: Label, g: Gap)
    requires cfg.Valid() && Enabled(cfg, s, l) && CallSucceeds(l)
    requires g in PendingGaps(s.sweep)
    ensures g in PendingGaps(SweepAfter(cfg, s, l)) || HookHeld(Step(cfg, s, l), g.id)
  {
    if l.GapEnqueue? && g == s.sweep.gaps[0] {
      EnqueueLocks(cfg.webhook, s.now, s.jobs[g.id].hook);
    }
  }

  /** Step `m` is the one that takes the gap off the sweeper's list, and leaves its webhook locked. */
  predicate HeldBy(states: seq<State>, m: nat, g: Gap) {
    && m + 1 < |states| && g in PendingGaps(states[m].sweep) && g !in PendingGaps(states[m + 1].sweep)
    && HookHeld(states[m + 1], g.id)
  }

  ghost predicate HeldBetween(states: seq<State>, b: nat, i: nat, g: Gap) {
    exists m :: b < m < i && HeldBy(states, m, g)
  }

  lemma {:induction false} GapProgress(cfg: Config, states: seq<State>, labels: seq<Label>, b: nat, i: nat,
                                       gaps: seq<Gap>, g: Gap)
    requires cfg.Valid() && Run(cfg, states, labels) && b < i < |states|
    requires labels[b] == GapBegin(Some(gaps)) && g in gaps
    requires forall m :: b < m < i ==> CallSucceeds(labels[m])
    ensures g in PendingGaps(states[i].sweep) || HeldBetween(states, b, i, g)
  {
    assert StepAt(cfg, states, labels, i - 1);
    if b + 1 < i {
      GapProgress(cfg, states, labels, b, i - 1, gaps, g);
      if g in PendingGaps(states[i - 1].sweep) {
        PendingGapStep(cfg, states[i - 1], labels[i - 1], g);
        assert g in PendingGaps(states[i].sweep) || HeldBy(states, i - 1, g);
      }
    }
  }

  /** Every finished job with a callback, no delivery row and an old enough finish is handled by
      the time the sweep ends, and the step that handled it left its webhook locked. */
  lemma GapsHeld(cfg: Config, states: seq<State>, labels: seq<Label>, b: nat, c: nat, gaps: seq<Gap>, id: JobId)
    requires cfg.Valid() && Run(cfg, states, labels) && b < c < |states|
    requires labels[b] == GapBegin(Some(gaps)) && states[c].sweep.Idle?
    requires forall m :: b < m < c ==> CallSucceeds(labels[m])
    requires id in states[b].jobs
    requires var r := states[b].jobs[id].row;
             && (r.status == Done || r.status == Failed) && r.callback && |r.deliveries| == 0
             && r.finishedAt.Some? && states[b].now - r.finishedAt.value > cfg.activeStaleAfter
    ensures exists m :: b < m < c && HeldBy(states, m, Gap(id, states[b].jobs[id].row.status))
  {
    assert StepAt(cfg, states, labels, b);
    var g := Gap(id, states[b].jobs[id].row.status);
    GapsExact(cfg, states, labels, b, gaps, g);
    GapProgress(cfg, states, labels, b, c, gaps, g);
  }
}
