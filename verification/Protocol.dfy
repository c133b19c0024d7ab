/** The job recovery protocol as a step system: API, conversion workers, webhook worker and
    reconciler sweep interleave at every store transaction and every queue call
    (internal/api/handlers.go, internal/worker/worker.go, internal/reconciler/reconciler.go). */
module Protocol {
  import opened Wrappers
  import opened RetryBudget
  import opened Lanes
  import opened Jobs

  datatype Config = Config(
    image: Params, document: Params, html: Params, audio: Params, av: Params, webhook: Params,
    queuedStaleAfter: Duration, activeStaleAfter: Duration, maxRecoveries: int)
  {
    function Conv(e: Engine): Params {
      match e
      case Document => document
      case Html => html
      case Audio => audio
      case AV => av
      case _ => image
    }

    predicate Valid() {
      image.Valid() && document.Valid() && html.Valid() && audio.Valid() && av.Valid() && webhook.Valid()
    }

    /** A non-positive RECONCILER_MAX_RECOVERIES allows no recovery. */
    function Cap(): nat { if maxRecoveries < 0 then 0 else maxRecoveries }
  }

  /** How a remote call ends: its true outcome reported, or an error reported although the
      effect did (or did not) commit. */
  datatype Report = Honest | Lost(committed: bool)

  /** One job: its row, its conversion and webhook tasks, and whether the API call that
      created it has yet to enqueue. */
  datatype Job = Job(row: Row, conv: Lane, hook: Lane, api: bool)

  datatype Loaded = LoadOk | BadOptions | LoadError
  datatype Outcome = Converted | TerminalError | TransientError

  /** Everything that can happen to one job. `i` picks one of its live tasks. */
  datatype Act =
    | ApiEnqueue(report: Report)
    | ConvStart(i: nat)
    | ConvLoad(i: nat, loaded: Loaded)
    | ConvActivate(i: nat, report: Report)
    | ConvEngine(i: nat, outcome: Outcome)
    | ConvRecord(i: nat, report: Report, terminal: bool)
    | ConvFinish(i: nat, report: Report, terminal: bool)
    | ConvReject(i: nat, report: Report)
    | ConvNotify(i: nat, report: Report)
    | ConvLeave(i: nat)
    | ConvRetry(i: nat, delay: Duration)
    | HookStart(i: nat)
    | HookLoad(i: nat, ok: bool)
    | HookDeliver(i: nat, delivered: bool, report: Report)
    | HookFlag(i: nat, report: Report)
    | HookLeave(i: nat)
    | HookRetry(i: nat, delay: Duration)
    | SweepConv(report: Report)
    | SweepRow(report: Report)
    | SweepExhaust(report: Report)
    | SweepHook(report: Report)
    | SweepGap(status: Status, report: Report)

  function Commit(rep: Report, r: Row, r': Option<Row>): Row {
    if rep != Lost(false) && r'.Some? then r'.value else r
  }

  predicate Seen(rep: Report, r': Option<Row>) { rep.Honest? && r'.Some? }

  function EnqueueAs(p: Params, now: Time, l: Lane, rep: Report): Lane
    requires p.Valid()
  {
    if rep == Lost(false) then l else Enqueue(p, now, l)
  }

  function ErrorPc(terminal: bool): Pc { if terminal then Reject else Retrying }

  ghost predicate CanAct(cfg: Config, now: Time, j: Job, act: Act)
    requires cfg.Valid()
  {
    match act
    case ApiEnqueue(_) => j.api
    case ConvStart(i) => CanStart(now, j.conv, i)
    case ConvLoad(i, loaded) => j.conv.Runs(i, Load) && (loaded.BadOptions? ==> j.row.engine != Image)
    case ConvActivate(i, _) => j.conv.Runs(i, Activate)
    case ConvEngine(i, _) => j.conv.Runs(i, Convert)
    case ConvRecord(i, _, _) => j.conv.Runs(i, Record)
    case ConvFinish(i, _, _) => j.conv.Runs(i, Finish)
    case ConvReject(i, _) => j.conv.Runs(i, Reject)
    case ConvNotify(i, _) => j.conv.Runs(i, Notify(true)) || j.conv.Runs(i, Notify(false))
    case ConvLeave(i) => j.conv.Runs(i, Leave(true)) || j.conv.Runs(i, Leave(false))
    case ConvRetry(i, delay) =>  // a transient error, or a crash at any point
      j.conv.RunsAny(i) && MayDelay(cfg.Conv(j.row.engine).policy, j.conv.tasks[i].retried, delay)
    case HookStart(i) => CanStart(now, j.hook, i)
    case HookLoad(i, _) => j.hook.Runs(i, Load)
    case HookDeliver(i, _, _) => j.hook.Runs(i, Deliver)
    case HookFlag(i, _) => j.hook.RunsAny(i) && j.hook.tasks[i].phase.pc.Flag?
    case HookLeave(i) => j.hook.Runs(i, Leave(true)) || j.hook.Runs(i, Leave(false))
    case HookRetry(i, delay) =>
      j.hook.RunsAny(i) && MayDelay(cfg.webhook.policy, j.hook.tasks[i].retried, delay)
    case SweepConv(_) => Routable(j.row.engine)
    case SweepRow(_) => true
    case SweepExhaust(_) => true
    case SweepHook(_) => true
    case SweepGap(_, _) => true
  }

  /** The row after an act. */
  function RowAfter(now: Time, j: Job, act: Act): Row {
    match act
    case ConvActivate(_, rep) => Commit(rep, j.row, MarkActive(j.row, now))
    case ConvRecord(_, rep, _) => Commit(rep, j.row, Some(AddOutput(j.row)))
    case ConvFinish(_, rep, _) => Commit(rep, j.row, MarkDone(j.row, now))
    case ConvReject(_, rep) => Commit(rep, j.row, MarkFailed(j.row, now, NoAction))
    case HookDeliver(i, delivered, rep) =>
      var attempt := if i < |j.hook.tasks| then j.hook.tasks[i].retried + 1 else 0;
      Commit(rep, j.row, Some(RecordAttempt(j.row, attempt, delivered)))
    case HookFlag(i, rep) =>
      if j.hook.RunsAny(i) && j.hook.tasks[i].phase.pc.Flag?
      then Commit(rep, j.row, Some(MarkDeadLetter(j.row, j.hook.tasks[i].phase.pc.delivery))) else j.row
    case SweepRow(rep) => Commit(rep, j.row, RequeueStale(j.row))
    case SweepExhaust(rep) => Commit(rep, j.row, MarkFailed(j.row, now, ReconcilerExhausted))
    case SweepGap(status, rep) => Commit(rep, j.row, Some(RecordGap(j.row, status)))
    case _ => j.row
  }

  /** The conversion tasks after an act. */
  function ConvAfter(cfg: Config, now: Time, j: Job, act: Act): Lane
    requires cfg.Valid() && CanAct(cfg, now, j, act)
  {
    var p := cfg.Conv(j.row.engine);
    match act
    case ApiEnqueue(rep) => if Routable(j.row.engine) then EnqueueAs(p, now, j.conv, rep) else j.conv
    case ConvStart(i) => Start(now, j.conv, i)
    case ConvLoad(i, loaded) =>
      Goto(j.conv, i, match loaded case LoadOk => Activate case BadOptions => Reject case LoadError => Retrying)
    case ConvActivate(i, rep) =>
      Goto(j.conv, i, if Seen(rep, MarkActive(j.row, now)) then Convert else Leave(false))
    case ConvEngine(i, outcome) =>
      var pc := match outcome case Converted => Record case TerminalError => Reject case TransientError => Retrying;
      Goto(j.conv, i, pc)
    case ConvRecord(i, rep, terminal) => Goto(j.conv, i, if rep.Honest? then Finish else ErrorPc(terminal))
    case ConvFinish(i, rep, terminal) =>
      Goto(j.conv, i, if Seen(rep, MarkDone(j.row, now)) then Notify(true) else ErrorPc(terminal))
    case ConvReject(i, rep) =>
      Goto(j.conv, i, if Seen(rep, MarkFailed(j.row, now, NoAction)) then Notify(false) else Leave(false))
    case ConvNotify(i, _) => Goto(j.conv, i, Leave(j.conv.tasks[i].phase.pc.ok))
    case ConvLeave(i) => if j.conv.tasks[i].phase.pc.ok then Complete(j.conv, i) else Archive(j.conv, i)
    case ConvRetry(i, delay) => Retry(p, now, j.conv, i, delay)
    case SweepConv(rep) => EnqueueAs(p, now, j.conv, rep)
    case _ => j.conv
  }

  /** The webhook tasks after an act. */
  function HookAfter(cfg: Config, now: Time, j: Job, act: Act): Lane
    requires cfg.Valid() && CanAct(cfg, now, j, act)
  {
    match act
    case ConvNotify(_, rep) => if j.row.callback then EnqueueAs(cfg.webhook, now, j.hook, rep) else j.hook
    case HookStart(i) => Start(now, j.hook, i)
    case HookLoad(i, ok) =>
      Goto(j.hook, i, if !ok then Retrying else if j.row.callback then Deliver else Leave(false))
    case HookDeliver(i, delivered, rep) =>
      var exhausted := rep.Honest? && j.hook.tasks[i].retried >= cfg.webhook.maxRetry;
      Goto(j.hook, i, if delivered then Leave(true) else if exhausted then Flag(|j.row.deliveries|) else Retrying)
    case HookFlag(i, _) => Goto(j.hook, i, Retrying)
    case HookLeave(i) => if j.hook.tasks[i].phase.pc.ok then Complete(j.hook, i) else Archive(j.hook, i)
    case HookRetry(i, delay) => Retry(cfg.webhook, now, j.hook, i, delay)
    case SweepHook(rep) => EnqueueAs(cfg.webhook, now, j.hook, rep)
    case _ => j.hook
  }

  function Effect(cfg: Config, now: Time, j: Job, act: Act): Job
    requires cfg.Valid() && CanAct(cfg, now, j, act)
  {
    Job(RowAfter(now, j, act), ConvAfter(cfg, now, j, act), HookAfter(cfg, now, j, act), j.api && !act.ApiEnqueue?)
  }

  predicate BySweeper(act: Act) {
    act.SweepConv? || act.SweepRow? || act.SweepExhaust? || act.SweepHook? || act.SweepGap?
  }

  // ----- the reconciler sweep, one call at a time -----

  datatype Gap = Gap(id: JobId, status: Status)

  datatype Sweep =
    | Idle
    | Count(todo: seq<JobId>)                        // RecoveryCount of todo[0] is next
    | Enq(id: JobId, todo: seq<JobId>)               // EnqueueXxxConvert
    | Requeue(id: JobId, again: bool, todo: seq<JobId>)  // RequeueStale, first or second try
    | Get(id: JobId, todo: seq<JobId>)               // Get, before exhaustion
    | Exhaust(id: JobId, callback: bool, todo: seq<JobId>)  // MarkFailed
    | Tell(id: JobId, todo: seq<JobId>)              // EnqueueWebhookDeliver after exhaustion
    | Gaps(gaps: seq<Gap>)                           // EnqueueWebhookDeliver of gaps[0]
    | GapLog(gap: Gap, gaps: seq<Gap>)               // RecordWebhookGapRecovered

  datatype State = State(now: Time, jobs: map<JobId, Job>, sweep: Sweep)

  datatype Label =
    | Tick(to: Time)
    | Create(id: JobId, engine: Engine, callback: bool)
    | Other(id: JobId, act: Act)                     // API, conversion worker or webhook worker
    | SweepBegin(found: Option<seq<JobId>>)          // FindStale
    | SweepCount(ok: bool)
    | SweepEnqueue(report: Report)
    | SweepRequeue(report: Report)
    | SweepGet(ok: bool)
    | SweepFail(report: Report)
    | SweepTell(report: Report)
    | GapBegin(missed: Option<seq<Gap>>)             // FindWebhookGaps
    | GapEnqueue(report: Report)
    | GapRecord(report: Report)
    | SweepCrash

  const INIT := State(0, map[], Idle)

  predicate Stale(cfg: Config, now: Time, r: Row) {
    || (r.status == Queued && r.createdAt < now - cfg.queuedStaleAfter)
    || (r.status == Active && r.startedAt.Some? && r.startedAt.value < now - cfg.activeStaleAfter)
  }

  predicate WebhookGap(cfg: Config, now: Time, r: Row) {
    && Terminal(r) && r.callback && r.deliveries == []
    && r.finishedAt.Some? && r.finishedAt.value < now - cfg.activeStaleAfter
  }

  /** The result set of FindStale, in whatever order the database returns it. */
  ghost predicate StaleScan(cfg: Config, s: State, ids: seq<JobId>) {
    && Distinct(ids)
    && (forall id :: id in ids <==> id in s.jobs && Stale(cfg, s.now, s.jobs[id].row))
  }

  predicate IsGap(cfg: Config, s: State, g: Gap) {
    g.id in s.jobs && WebhookGap(cfg, s.now, s.jobs[g.id].row) && g.status == s.jobs[g.id].row.status
  }

  /** The result set of FindWebhookGaps. */
  ghost predicate GapScan(cfg: Config, s: State, gaps: seq<Gap>) {
    && Distinct(gaps)
    && (forall g :: g in gaps <==> IsGap(cfg, s, g))
  }

  /** The job a step acts on, and the act. */
  function ActOf(s: State, l: Label): Option<(JobId, Act)> {
    match l
    case Other(id, act) => Some((id, act))
    case SweepEnqueue(rep) => if s.sweep.Enq? then Some((s.sweep.id, SweepConv(rep))) else None
    case SweepRequeue(rep) => if s.sweep.Requeue? then Some((s.sweep.id, SweepRow(rep))) else None
    case SweepFail(rep) => if s.sweep.Exhaust? then Some((s.sweep.id, SweepExhaust(rep))) else None
    case SweepTell(rep) => if s.sweep.Tell? then Some((s.sweep.id, SweepHook(rep))) else None
    case GapEnqueue(rep) =>
      if s.sweep.Gaps? && s.sweep.gaps != [] then Some((s.sweep.gaps[0].id, SweepHook(rep))) else None
    case GapRecord(rep) => if s.sweep.GapLog? then Some((s.sweep.gap.id, SweepGap(s.sweep.gap.status, rep))) else None
    case _ => None
  }

  ghost predicate Acts(cfg: Config, s: State, id: JobId, act: Act)
    requires cfg.Valid()
  {
    id in s.jobs && CanAct(cfg, s.now, s.jobs[id], act)
  }

  ghost predicate Enabled(cfg: Config, s: State, l: Label)
    requires cfg.Valid()
  {
    && (ActOf(s, l).Some? ==> Acts(cfg, s, ActOf(s, l).value.0, ActOf(s, l).value.1))
    && match l
       case Tick(to) => s.now <= to
       case Create(id, _, _) => id !in s.jobs
       case Other(_, act) => !BySweeper(act)
       case SweepBegin(found) => s.sweep.Idle? && (found.Some? ==> StaleScan(cfg, s, found.value))
       case SweepCount(_) => s.sweep.Count? && s.sweep.todo != [] && s.sweep.todo[0] in s.jobs
       case SweepEnqueue(_) => s.sweep.Enq?
       case SweepRequeue(_) => s.sweep.Requeue?
       case SweepGet(_) => s.sweep.Get? && s.sweep.id in s.jobs
       case SweepFail(_) => s.sweep.Exhaust?
       case SweepTell(_) => s.sweep.Tell?
       case GapBegin(missed) => s.sweep == Count([]) && (missed.Some? ==> GapScan(cfg, s, missed.value))
       case GapEnqueue(_) => s.sweep.Gaps? && s.sweep.gaps != []
       case GapRecord(_) => s.sweep.GapLog?
       case SweepCrash => true
  }

  function JobsAfter(cfg: Config, s: State, l: Label): map<JobId, Job>
    requires cfg.Valid() && Enabled(cfg, s, l)
  {
    if l.Create? then
      s.jobs[l.id := Job(NewRow(s.now, l.engine, l.callback), EMPTY_LANE, EMPTY_LANE, true)]
    else
      match ActOf(s, l)
      case None => s.jobs
      case Some((id, act)) => s.jobs[id := Effect(cfg, s.now, s.jobs[id], act)]
  }

  /** Once the gaps are exhausted the sweep is over. */
  function Remaining(gaps: seq<Gap>): Sweep { if gaps == [] then Idle else Gaps(gaps) }

  /** Where the sweeper stands after a step. */
  function SweepAfter(cfg: Config, s: State, l: Label): Sweep
    requires cfg.Valid() && Enabled(cfg, s, l)
  {
    match l
    case SweepBegin(found) => if found.Some? then Count(found.value) else Idle
    case SweepCount(ok) =>
      var id, rest := s.sweep.todo[0], s.sweep.todo[1..];
      if !ok then Count(rest)
      else if Recoveries(s.jobs[id].row) >= cfg.maxRecoveries then Get(id, rest)
      else if Routable(s.jobs[id].row.engine) then Enq(id, rest)
      else Count(rest)
    case SweepEnqueue(rep) =>
      var acquired := rep.Honest? && !s.jobs[s.sweep.id].conv.Locked(s.now);
      if acquired then Requeue(s.sweep.id, false, s.sweep.todo) else Count(s.sweep.todo)
    case SweepRequeue(rep) =>
      var ok := Seen(rep, RequeueStale(s.jobs[s.sweep.id].row));
      if ok || s.sweep.again then Count(s.sweep.todo) else Requeue(s.sweep.id, true, s.sweep.todo)
    case SweepGet(ok) => Exhaust(s.sweep.id, ok && s.jobs[s.sweep.id].row.callback, s.sweep.todo)
    case SweepFail(_) => if s.sweep.callback then Tell(s.sweep.id, s.sweep.todo) else Count(s.sweep.todo)
    case SweepTell(_) => Count(s.sweep.todo)
    case GapBegin(missed) => if missed.Some? then Remaining(missed.value) else Idle
    case GapEnqueue(rep) =>
      var g, rest := s.sweep.gaps[0], s.sweep.gaps[1..];
      var acquired := rep.Honest? && !s.jobs[g.id].hook.Locked(s.now);
      if acquired then GapLog(g, rest) else Remaining(rest)
    case GapRecord(_) => Remaining(s.sweep.gaps)
    case SweepCrash => Idle
    case _ => s.sweep
  }

  function Step(cfg: Config, s: State, l: Label): State
    requires cfg.Valid() && Enabled(cfg, s, l)
  {
    State(if l.Tick? then l.to else s.now, JobsAfter(cfg, s, l), SweepAfter(cfg, s, l))
  }

  // ----- runs -----

  ghost predicate StepAt(cfg: Config, states: seq<State>, labels: seq<Label>, k: nat)
    requires cfg.Valid() && |states| == |labels| + 1
  {
    k < |labels| && Enabled(cfg, states[k], labels[k]) && states[k + 1] == Step(cfg, states[k], labels[k])
  }

  /** `states` is a path through the step system along `labels`. */
  ghost predicate Path(cfg: Config, states: seq<State>, labels: seq<Label>)
    requires cfg.Valid()
  {
    |states| == |labels| + 1 && forall k :: 0 <= k < |labels| ==> StepAt(cfg, states, labels, k)
  }

  ghost predicate Run(cfg: Config, states: seq<State>, labels: seq<Label>)
    requires cfg.Valid()
  {
    Path(cfg, states, labels) && states[0] == INIT
  }

  /** A run extended by an enabled step is a run. */
  lemma RunExtends(cfg: Config, states: seq<State>, labels: seq<Label>, l: Label)
    requires cfg.Valid() && Run(cfg, states, labels) && Enabled(cfg, states[|labels|], l)
    ensures Run(cfg, states + [Step(cfg, states[|labels|], l)], labels + [l])
  {
    var states', labels' := states + [Step(cfg, states[|labels|], l)], labels + [l];
    forall k | 0 <= k < |labels'| ensures StepAt(cfg, states', labels', k) {
      if k < |labels| { assert StepAt(cfg, states, labels, k); }
    }
  }
}
