/** What the handlers do with the outcome of each of their calls (internal/worker/worker.go), read
    off the labels of a run: the order of the calls of an attempt, and what becomes of the job, the
    task and the lock. */
module Outcomes {
  import opened Wrappers
  import opened RetryBudget
  import opened Lanes
  import opened Jobs
  import opened Protocol
  import opened Safety

  /** Conversion tasks or webhook tasks. */
  datatype Side = Conv | Hook

  function LaneOf(j: Job, side: Side): Lane { if side == Conv then j.conv else j.hook }

  function ParamsOf(cfg: Config, j: Job, side: Side): Params {
    if side == Conv then cfg.Conv(j.row.engine) else cfg.webhook
  }

  predicate OnConv(act: Act) {
    || act.ConvStart? || act.ConvLoad? || act.ConvActivate? || act.ConvEngine? || act.ConvRecord?
    || act.ConvFinish? || act.ConvReject? || act.ConvNotify? || act.ConvLeave? || act.ConvRetry?
  }

  predicate OnHook(act: Act) {
    act.HookStart? || act.HookLoad? || act.HookDeliver? || act.HookFlag? || act.HookLeave? || act.HookRetry?
  }

  /** The act is one of a handler, or of asynq, on a task of this side. */
  predicate On(act: Act, side: Side) { if side == Conv then OnConv(act) else OnHook(act) }

  /** The label is such an act on the task numbered `task` of job `id`. */
  predicate Touches(s: State, l: Label, id: JobId, side: Side, task: nat) {
    && l.Other? && l.id == id && id in s.jobs && On(l.act, side)
    && l.act.i < |LaneOf(s.jobs[id], side).tasks| && LaneOf(s.jobs[id], side).tasks[l.act.i].id == task
  }

  // ----- tasks keep their numbers -----

  /** Task numbers are used once. */
  predicate Numbered(l: Lane) {
    && (forall i :: 0 <= i < |l.tasks| ==> l.tasks[i].id < l.nextId)
    && (forall i, k :: 0 <= i < k < |l.tasks| ==> l.tasks[i].id != l.tasks[k].id)
  }

  /** `t` is the task with its number. */
  predicate Holds(l: Lane, t: Task) { t in l.tasks && forall u <- l.tasks :: u.id == t.id ==> u == t }

  /** The task with this number has come and gone. */
  predicate Gone(l: Lane, task: nat) { task < l.nextId && forall u <- l.tasks :: u.id != task }

  /** What one act can do to a lane: nothing, a new waiting task, a task replaced, a task removed. */
  datatype Move = Same | Push(t: Task) | Put(i: nat, t: Task) | Drop(i: nat)

  predicate Moves(l: Lane, l': Lane, mv: Move) {
    match mv
    case Same => l'.tasks == l.tasks && l'.nextId == l.nextId
    case Push(t) => l'.tasks == l.tasks + [t] && t.id == l.nextId && t.phase.Waiting? && l'.nextId == l.nextId + 1
    case Put(i, t) =>
      i < |l.tasks| && t.id == l.tasks[i].id && l'.tasks == l.tasks[i := t] && l'.nextId == l.nextId
    case Drop(i) => i < |l.tasks| && l'.tasks == l.tasks[..i] + l.tasks[i + 1..] && l'.nextId == l.nextId
  }

  /** The move is not about the task with this number. */
  predicate Spares(l: Lane, mv: Move, task: nat) {
    match mv
    case Put(i, _) => i < |l.tasks| ==> l.tasks[i].id != task
    case Drop(i) => i < |l.tasks| ==> l.tasks[i].id != task
    case _ => true
  }

  lemma MoveNumbered(l: Lane, l': Lane, mv: Move)
    requires Numbered(l) && Moves(l, l', mv)
    ensures Numbered(l') && l.nextId <= l'.nextId
  {
    match mv
    case Drop(i) =>
      forall k | 0 <= k < |l'.tasks| ensures l'.tasks[k] == l.tasks[if k < i then k else k + 1] {}
    case _ =>
  }

  lemma MoveSpares(l: Lane, l': Lane, mv: Move, task: nat)
    requires Numbered(l) && Moves(l, l', mv) && Spares(l, mv, task) && task < l.nextId
    ensures forall t: Task :: t.id == task ==> (t in l'.tasks <==> t in l.tasks)
  {
    forall t: Task | t.id == task ensures t in l'.tasks <==> t in l.tasks {
      match mv
      case Put(i, u) =>
        if t in l.tasks {
          var k :| 0 <= k < |l.tasks| && l.tasks[k] == t;
          assert l'.tasks[k] == t;
        }
      case Drop(i) =>
        if t in l.tasks {
          var k :| 0 <= k < |l.tasks| && l.tasks[k] == t;
          assert k < i ==> l'.tasks[k] == t;
          assert k > i ==> l'.tasks[k - 1] == t;
        }
      case _ =>
    }
  }

  lemma NumberedHolds(l: Lane, i: nat)
    requires Numbered(l) && i < |l.tasks|
    ensures Holds(l, l.tasks[i])
  {
  }

  lemma PutHolds(l: Lane, l': Lane, i: nat, t: Task)
    requires Numbered(l) && Moves(l, l', Put(i, t))
    ensures Holds(l', t)
  {
    assert l'.tasks[i] == t;
  }

  lemma DropGone(l: Lane, l': Lane, i: nat)
    requires Numbered(l) && Moves(l, l', Drop(i))
    ensures Gone(l', l.tasks[i].id)
  {
  }

  // ----- what becomes of a task -----

  /** Where a conversion handler goes from each of its calls. */
  function ConvNext(r: Row, t: Task, act: Act): Pc {
    match act
    case ConvLoad(_, LoadOk) => Activate
    case ConvLoad(_, BadOptions) => Reject
    case ConvActivate(_, Honest) => if r.status == Queued || r.status == Active then Convert else Leave(false)
    case ConvActivate(_, Lost(_)) => Leave(false)
    case ConvEngine(_, Converted) => Record
    case ConvEngine(_, TerminalError) => Reject
    case ConvRecord(_, Honest, _) => Finish
    case ConvRecord(_, Lost(_), true) => Reject
    case ConvFinish(_, Honest, terminal) =>
      if r.status == Active then Notify(true) else if terminal then Reject else Retrying
    case ConvFinish(_, Lost(_), true) => Reject
    case ConvReject(_, Honest) => if r.status == Queued || r.status == Active then Notify(false) else Leave(false)
    case ConvReject(_, Lost(_)) => Leave(false)
    case ConvNotify(_, _) => if t.At(Notify(true)) then Leave(true) else Leave(false)
    case _ => Retrying
  }

  /** Where a webhook handler goes from each of its calls. */
  function HookNext(maxRetry: nat, r: Row, t: Task, act: Act): Pc {
    match act
    case HookLoad(_, true) => if r.callback then Deliver else Leave(false)
    case HookDeliver(_, true, _) => Leave(true)
    case HookDeliver(_, false, Honest) => if t.retried >= maxRetry then Flag(|r.deliveries|) else Retrying
    case _ => Retrying
  }

  function Next(cfg: Config, j: Job, t: Task, act: Act, side: Side): Pc {
    if side == Conv then ConvNext(j.row, t, act) else HookNext(cfg.webhook.maxRetry, j.row, t, act)
  }

  /** What becomes of the task an act is about; None when it is gone. */
  function Becomes(cfg: Config, now: Time, j: Job, t: Task, act: Act, side: Side): Option<Task> {
    if act.ConvStart? || act.HookStart? then
      var readyAt := if t.phase.Waiting? then t.phase.readyAt else now;
      Some(t.(waited := t.waited + (now - readyAt), phase := Running(now, Load)))
    else if act.ConvRetry? || act.HookRetry? then
      if t.retried >= ParamsOf(cfg, j, side).maxRetry then None
      else Some(t.(retried := t.retried + 1, phase := Waiting(now + act.delay)))
    else if act.ConvLeave? || act.HookLeave? then None
    else
      var started := if t.phase.Running? then t.phase.started else now;
      Some(t.(phase := Running(started, Next(cfg, j, t, act, side))))
  }

  function MoveOf(i: nat, became: Option<Task>): Move {
    match became case None => Drop(i) case Some(t) => Put(i, t)
  }

  lemma ConvTouch(cfg: Config, now: Time, j: Job, act: Act)
    requires cfg.Valid() && CanAct(cfg, now, j, act) && OnConv(act)
    ensures act.i < |j.conv.tasks|
    ensures Moves(j.conv, ConvAfter(cfg, now, j, act), MoveOf(act.i,
            Becomes(cfg, now, j, j.conv.tasks[act.i], act, Conv)))
  {
  }

  lemma HookTouch(cfg: Config, now: Time, j: Job, act: Act)
    requires cfg.Valid() && CanAct(cfg, now, j, act) && OnHook(act)
    ensures act.i < |j.hook.tasks|
    ensures Moves(j.hook, HookAfter(cfg, now, j, act), MoveOf(act.i,
            Becomes(cfg, now, j, j.hook.tasks[act.i], act, Hook)))
  {
  }

  /** Any other act leaves a lane alone or adds a task. */
  lemma OffMoves(cfg: Config, now: Time, j: Job, act: Act, side: Side) returns (mv: Move)
    requires cfg.Valid() && CanAct(cfg, now, j, act) && !On(act, side)
    ensures Moves(LaneOf(j, side), LaneOf(Effect(cfg, now, j, act), side), mv) && (mv.Same? || mv.Push?)
  {
    var l, l' := LaneOf(j, side), LaneOf(Effect(cfg, now, j, act), side);
    mv := if l'.tasks == l.tasks then Same else Push(Task(l.nextId, now, 0, 0, Waiting(now)));
  }

  lemma OnMoves(cfg: Config, now: Time, j: Job, act: Act, side: Side)
    requires cfg.Valid() && CanAct(cfg, now, j, act) && On(act, side)
    ensures act.i < |LaneOf(j, side).tasks|
    ensures var became := Becomes(cfg, now, j, LaneOf(j, side).tasks[act.i], act, side);
            Moves(LaneOf(j, side), LaneOf(Effect(cfg, now, j, act), side), MoveOf(act.i, became))
  {
    if side == Conv { ConvTouch(cfg, now, j, act); } else { HookTouch(cfg, now, j, act); }
  }

  // ----- over runs -----

  predicate NumberedIn(s: State, id: JobId, side: Side) { id in s.jobs ==> Numbered(LaneOf(s.jobs[id], side)) }

  /** One step's move on one lane. */
  lemma StepMoves(cfg: Config, s: State, l: Label, id: JobId, side: Side) returns (mv: Move)
    requires cfg.Valid() && Enabled(cfg, s, l) && id in s.jobs
    ensures id in JobsAfter(cfg, s, l)
    ensures Moves(LaneOf(s.jobs[id], side), LaneOf(JobsAfter(cfg, s, l)[id], side), mv)
    ensures forall task :: !Touches(s, l, id, side, task) ==> Spares(LaneOf(s.jobs[id], side), mv, task)
  {
    if ActOf(s, l).Some? && ActOf(s, l).value.0 == id {
      var act := ActOf(s, l).value.1;
      if On(act, side) {
        OnMoves(cfg, s.now, s.jobs[id], act, side);
        mv := MoveOf(act.i, Becomes(cfg, s.now, s.jobs[id], LaneOf(s.jobs[id], side).tasks[act.i], act, side));
      } else {
        mv := OffMoves(cfg, s.now, s.jobs[id], act, side);
      }
    } else {
      mv := Same;
    }
  }

  lemma {:induction false} RunNumbered(cfg: Config, states: seq<State>, labels: seq<Label>, k: nat, id: JobId,
                                       side: Side)
    requires cfg.Valid() && Run(cfg, states, labels) && k < |states|
    ensures NumberedIn(states[k], id, side)
  {
    if k > 0 {
      assert StepAt(cfg, states, labels, k - 1);
      RunNumbered(cfg, states, labels, k - 1, id, side);
      if id in states[k - 1].jobs {
        var mv := StepMoves(cfg, states[k - 1], labels[k - 1], id, side);
        MoveNumbered(LaneOf(states[k - 1].jobs[id], side), LaneOf(states[k].jobs[id], side), mv);
      }
    }
  }

  /** A step that does not touch a task leaves it as it is. */
  lemma StepSpares(cfg: Config, s: State, l: Label, id: JobId, side: Side, task: nat)
    requires cfg.Valid() && Enabled(cfg, s, l) && id in s.jobs && Numbered(LaneOf(s.jobs[id], side))
    requires !Touches(s, l, id, side, task) && task < LaneOf(s.jobs[id], side).nextId
    ensures id in JobsAfter(cfg, s, l)
    ensures var a, b := LaneOf(s.jobs[id], side), LaneOf(JobsAfter(cfg, s, l)[id], side);
            task < b.nextId && forall t: Task :: t.id == task ==> (t in b.tasks <==> t in a.tasks)
  {
    var mv := StepMoves(cfg, s, l, id, side);
    var a, b := LaneOf(s.jobs[id], side), LaneOf(JobsAfter(cfg, s, l)[id], side);
    MoveNumbered(a, b, mv);
    MoveSpares(a, b, mv, task);
  }

  /** Nothing touches the task in the steps from `a` up to `b`. */
  ghost predicate Quiet(states: seq<State>, labels: seq<Label>, a: nat, b: nat, id: JobId, side: Side, task: nat) {
    forall n :: a <= n < b && n < |labels| && n < |states| ==> !Touches(states[n], labels[n], id, side, task)
  }

  lemma {:induction false} QuietSpares(
    cfg: Config, states: seq<State>, labels: seq<Label>, a: nat, b: nat, id: JobId, side: Side, task: nat)
    requires cfg.Valid() && Run(cfg, states, labels) && a <= b < |states| && id in states[a].jobs
    requires Quiet(states, labels, a, b, id, side, task) && task < LaneOf(states[a].jobs[id], side).nextId
    ensures id in states[b].jobs && task < LaneOf(states[b].jobs[id], side).nextId
    ensures forall t: Task :: t.id == task ==>
              (t in LaneOf(states[b].jobs[id], side).tasks <==> t in LaneOf(states[a].jobs[id], side).tasks)
    decreases b
  {
    if a < b {
      assert StepAt(cfg, states, labels, b - 1);
      QuietSpares(cfg, states, labels, a, b - 1, id, side, task);
      RunNumbered(cfg, states, labels, b - 1, id, side);
      StepSpares(cfg, states[b - 1], labels[b - 1], id, side, task);
    }
  }

  /** The task an act of a run is about. */
  function TaskAt(states: seq<State>, labels: seq<Label>, k: nat, id: JobId, side: Side, task: nat): Task
    requires k < |states| && k < |labels| && Touches(states[k], labels[k], id, side, task)
  {
    LaneOf(states[k].jobs[id], side).tasks[labels[k].act.i]
  }

  /** What the act at `k` makes of its task. */
  ghost function BecameAt(
    cfg: Config, states: seq<State>, labels: seq<Label>, k: nat, id: JobId, side: Side, task: nat): Option<Task>
    requires k < |states| && k < |labels| && Touches(states[k], labels[k], id, side, task)
  {
    Becomes(cfg, states[k].now, states[k].jobs[id], TaskAt(states, labels, k, id, side, task), labels[k].act, side)
  }

  /** Steps `k` and `m` are two acts on the same task with none between. */
  ghost predicate Consecutive(
    states: seq<State>, labels: seq<Label>, k: nat, m: nat, id: JobId, side: Side, task: nat) {
    && k < m < |labels| && |labels| < |states|
    && Touches(states[k], labels[k], id, side, task) && Touches(states[m], labels[m], id, side, task)
    && Quiet(states, labels, k + 1, m, id, side, task)
  }

  lemma TouchLeaves(cfg: Config, states: seq<State>, labels: seq<Label>, k: nat, id: JobId, side: Side, task: nat)
    requires cfg.Valid() && Run(cfg, states, labels) && k < |labels| && Touches(states[k], labels[k], id, side, task)
    ensures id in states[k + 1].jobs
    ensures var became, l' := BecameAt(cfg, states, labels, k, id, side, task), LaneOf(states[k + 1].jobs[id], side);
            task < l'.nextId && if became.Some? then became.value.id == task
                && Holds(l', became.value) else Gone(l', task)
  {
    assert StepAt(cfg, states, labels, k);
    RunNumbered(cfg, states, labels, k, id, side);
    RunNumbered(cfg, states, labels, k + 1, id, side);
    var j, act := states[k].jobs[id], labels[k].act;
    OnMoves(cfg, states[k].now, j, act, side);
    var l, l', became := LaneOf(j, side), LaneOf(states[k + 1].jobs[id], side),
        BecameAt(cfg, states, labels, k, id, side, task);
    if became.Some? {
      PutHolds(l, l', act.i, became.value);
    } else {
      DropGone(l, l', act.i);
    }
  }

  /** The next act on a task finds it as the act before left it. */
  lemma NextFinds(cfg: Config, states: seq<State>, labels: seq<Label>, k: nat, m: nat, id: JobId, side: Side, task: nat)
    requires cfg.Valid() && Run(cfg, states, labels) && Consecutive(states, labels, k, m, id, side, task)
    ensures BecameAt(cfg, states, labels, k, id, side, task) == Some(TaskAt(states, labels, m, id, side, task))
  {
    TouchLeaves(cfg, states, labels, k, id, side, task);
    QuietSpares(cfg, states, labels, k + 1, m, id, side, task);
    var t := TaskAt(states, labels, m, id, side, task);
    assert t in LaneOf(states[m].jobs[id], side).tasks;
    assert t in LaneOf(states[k + 1].jobs[id], side).tasks;
  }

  // ----- the order of calls -----

  /** What follows a call of a conversion handler whose worker lives on: what its outcome asks for. */
  predicate ConvFollows(r: Row, act: Act, next: Act) {
    match act
    case ConvStart(_) => next.ConvLoad?
    case ConvLoad(_, LoadOk) => next.ConvActivate?
    case ConvLoad(_, BadOptions) => next.ConvReject?
    case ConvActivate(_, rep) =>
      if rep.Honest? && r.status in {Queued, Active} then next.ConvEngine? else next.ConvLeave?
    case ConvEngine(_, Converted) => next.ConvRecord?
    case ConvEngine(_, TerminalError) => next.ConvReject?
    case ConvRecord(_, rep, terminal) => if rep.Honest? then next.ConvFinish? else terminal && next.ConvReject?
    case ConvFinish(_, rep, terminal) =>
      if rep.Honest? && r.status == Active then next.ConvNotify? else terminal && next.ConvReject?
    case ConvReject(_, rep) =>
      if rep.Honest? && r.status in {Queued, Active} then next.ConvNotify? else next.ConvLeave?
    case ConvNotify(_, _) => next.ConvLeave?
    case _ => false
  }

  /** What may follow an act on a conversion task. A retry may follow any call, since the worker may
      die at any point, and is all that follows a passing error; a retried task starts again; nothing
      follows a return. */
  predicate ConvScript(r: Row, act: Act, next: Act) {
    if act.ConvRetry? then next.ConvStart?
    else !act.ConvLeave? && (next.ConvRetry? || ConvFollows(r, act, next))
  }

  lemma ConvScripted(cfg: Config, now: Time, j: Job, act: Act, now': Time, j': Job, next: Act)
    requires cfg.Valid() && CanAct(cfg, now, j, act) && CanAct(cfg, now', j', next) && OnConv(act) && OnConv(next)
    requires act.i < |j.conv.tasks| && next.i < |j'.conv.tasks|
    requires Becomes(cfg, now, j, j.conv.tasks[act.i], act, Conv) == Some(j'.conv.tasks[next.i])
    ensures ConvScript(j.row, act, next)
  {
  }

  /** In every run, two consecutive acts on a conversion task follow the script. */
  lemma ConvOrder(cfg: Config, states: seq<State>, labels: seq<Label>, k: nat, m: nat, id: JobId, task: nat)
    requires cfg.Valid() && Run(cfg, states, labels) && Consecutive(states, labels, k, m, id, Conv, task)
    ensures ConvScript(states[k].jobs[id].row, labels[k].act, labels[m].act)
  {
    NextFinds(cfg, states, labels, k, m, id, Conv, task);
    assert StepAt(cfg, states, labels, k) && StepAt(cfg, states, labels, m);
    ConvScripted(cfg, states[k].now, states[k].jobs[id], labels[k].act, states[m].now, states[m].jobs[id],
        labels[m].act);
  }

  /** The same for a webhook handler; `last` says that the attempt is the task's last. */
  predicate HookFollows(r: Row, last: bool, act: Act, next: Act) {
    match act
    case HookStart(_) => next.HookLoad?
    case HookLoad(_, ok) => ok && if r.callback then next.HookDeliver? else next.HookLeave?
    case HookDeliver(_, delivered, rep) =>
      if delivered then next.HookLeave? else rep.Honest? && last && next.HookFlag?
    case _ => false
  }

  predicate HookScript(r: Row, last: bool, act: Act, next: Act) {
    if act.HookRetry? then next.HookStart?
    else !act.HookLeave? && (next.HookRetry? || HookFollows(r, last, act, next))
  }

  lemma HookScripted(cfg: Config, now: Time, j: Job, act: Act, now': Time, j': Job, next: Act)
    requires cfg.Valid() && CanAct(cfg, now, j, act) && CanAct(cfg, now', j', next) && OnHook(act) && OnHook(next)
    requires act.i < |j.hook.tasks| && next.i < |j'.hook.tasks|
    requires Becomes(cfg, now, j, j.hook.tasks[act.i], act, Hook) == Some(j'.hook.tasks[next.i])
    ensures HookScript(j.row, j.hook.tasks[act.i].retried >= cfg.webhook.maxRetry, act, next)
  {
  }

  lemma HookOrder(cfg: Config, states: seq<State>, labels: seq<Label>, k: nat, m: nat, id: JobId, task: nat)
    requires cfg.Valid() && Run(cfg, states, labels) && Consecutive(states, labels, k, m, id, Hook, task)
    ensures var last := TaskAt(states, labels, k, id, Hook, task).retried >= cfg.webhook.maxRetry;
            HookScript(states[k].jobs[id].row, last, labels[k].act, labels[m].act)
  {
    NextFinds(cfg, states, labels, k, m, id, Hook, task);
    assert StepAt(cfg, states, labels, k) && StepAt(cfg, states, labels, m);
    HookScripted(cfg, states[k].now, states[k].jobs[id], labels[k].act, states[m].now, states[m].jobs[id],
        labels[m].act);
  }

  // ----- failed only by a terminal error -----

  lemma Untouched(cfg: Config, s: State, l: Label, id: JobId, side: Side, t: Task)
    requires cfg.Valid() && Enabled(cfg, s, l) && id in s.jobs && !Touches(s, l, id, side, t.id)
    requires t.phase.Running? && id in JobsAfter(cfg, s, l) && t in LaneOf(JobsAfter(cfg, s, l)[id], side).tasks
    ensures t in LaneOf(s.jobs[id], side).tasks
  {
    var mv := StepMoves(cfg, s, l, id, side);
  }

  /** A running task has been touched, and the last touch made it what it is. */
  lemma {:induction false} LastTouch(
    cfg: Config, states: seq<State>, labels: seq<Label>, k: nat, id: JobId, side: Side, t: Task) returns (m: nat)
    requires cfg.Valid() && Run(cfg, states, labels) && k < |states| && id in states[k].jobs
    requires t in LaneOf(states[k].jobs[id], side).tasks && t.phase.Running?
    ensures m < k && Touches(states[m], labels[m], id, side, t.id) && Quiet(states, labels, m + 1, k, id, side, t.id)
    ensures BecameAt(cfg, states, labels, m, id, side, t.id) == Some(t)
  {
    assert k > 0;
    assert StepAt(cfg, states, labels, k - 1);
    if id in states[k - 1].jobs && Touches(states[k - 1], labels[k - 1], id, side, t.id) {
      m := k - 1;
      TouchLeaves(cfg, states, labels, m, id, side, t.id);
    } else {
      assert id in states[k - 1].jobs;
      Untouched(cfg, states[k - 1], labels[k - 1], id, side, t);
      m := LastTouch(cfg, states, labels, k - 1, id, side, t);
    }
  }

  /** The outcomes that condemn a job: options that do not parse, an engine error classified as
      terminal, or an error in recording the result that is. */
  predicate Damning(r: Row, act: Act) {
    || (act.ConvLoad? && act.loaded == BadOptions)
    || (act.ConvEngine? && act.outcome == TerminalError)
    || (act.ConvRecord? && act.terminal && !act.report.Honest?)
    || (act.ConvFinish? && act.terminal && !(act.report.Honest? && r.status == Active))
  }

  lemma OnlyRejectFails(now: Time, j: Job, act: Act)
    requires !BySweeper(act) && j.row.status != Failed && RowAfter(now, j, act).status == Failed
    ensures act.ConvReject?
  {
  }

  /** In every run, a worker's step fails a job only as the call that follows, in the same attempt,
      an outcome that condemns it. */
  lemma FailedOnlyIfDamned(cfg: Config, states: seq<State>, labels: seq<Label>, k: nat, id: JobId)
    requires cfg.Valid() && Run(cfg, states, labels) && k < |labels| && labels[k].Other? && labels[k].id == id
    requires id in states[k].jobs && id in states[k + 1].jobs
    requires states[k].jobs[id].row.status != Failed && states[k + 1].jobs[id].row.status == Failed
    ensures labels[k].act.ConvReject? && labels[k].act.i < |states[k].jobs[id].conv.tasks|
    ensures var task := states[k].jobs[id].conv.tasks[labels[k].act.i].id;
            exists m: nat ::
              Consecutive(states, labels, m, k, id, Conv, task) && Damning(states[m].jobs[id].row, labels[m].act)
  {
    assert StepAt(cfg, states, labels, k);
    OnlyRejectFails(states[k].now, states[k].jobs[id], labels[k].act);
    var t := states[k].jobs[id].conv.tasks[labels[k].act.i];
    var m := LastTouch(cfg, states, labels, k, id, Conv, t);
    assert Consecutive(states, labels, m, k, id, Conv, t.id);
    ConvOrder(cfg, states, labels, m, k, id, t.id);
  }

  // ----- what follows an outcome -----

  /** An outcome worth another attempt: the job could not be read, or the engine failed for a
      passing reason. */
  predicate Passing(act: Act) {
    (act.ConvLoad? && act.loaded == LoadError) || (act.ConvEngine? && act.outcome == TransientError)
  }

  lemma RowOfPassing(now: Time, j: Job, act: Act)
    requires Passing(act) || act.ConvRetry? || act.HookRetry?
    ensures RowAfter(now, j, act) == j.row
  {
  }

  /** A retry keeps the lock, whether the task lives on or is archived. */
  lemma RetryKeepsLock(cfg: Config, now: Time, j: Job, act: Act)
    requires cfg.Valid() && CanAct(cfg, now, j, act) && (act.ConvRetry? || act.HookRetry?)
    ensures Effect(cfg, now, j, act).conv.lock == j.conv.lock && Effect(cfg, now, j, act).hook.lock == j.hook.lock
  {
  }

  /** After a passing error the row is left alone, the task's next act is its retry, and that leaves
      the row and the lock alone too: the task waits out an allowed delay with one retry more to its
      name, or, its budget spent, is gone. */
  lemma PassingRetries(cfg: Config, states: seq<State>, labels: seq<Label>, k: nat, m: nat, id: JobId, task: nat)
    requires cfg.Valid() && Run(cfg, states, labels) && Consecutive(states, labels, k, m, id, Conv, task)
    requires Passing(labels[k].act)
    ensures id in states[k + 1].jobs && states[k + 1].jobs[id].row == states[k].jobs[id].row
    ensures labels[m].act.ConvRetry? && id in states[m + 1].jobs
    ensures var t, p, j, j' := TaskAt(states, labels, k, id, Conv, task), cfg.Conv(states[m].jobs[id].row.engine),
                               states[m].jobs[id], states[m + 1].jobs[id];
            var delay := labels[m].act.delay;
            && j'.row == j.row && j'.conv.lock == j.conv.lock && MayDelay(p.policy, t.retried, delay)
            && (t.retried < p.maxRetry ==>
                  Holds(j'.conv, t.(retried := t.retried + 1, phase := Waiting(states[m].now + delay))))
            && (t.retried >= p.maxRetry ==> Gone(j'.conv, task))
  {
    assert StepAt(cfg, states, labels, k) && StepAt(cfg, states, labels, m);
    RowOfPassing(states[k].now, states[k].jobs[id], labels[k].act);
    ConvOrder(cfg, states, labels, k, m, id, task);
    NextFinds(cfg, states, labels, k, m, id, Conv, task);
    RowOfPassing(states[m].now, states[m].jobs[id], labels[m].act);
    RetryKeepsLock(cfg, states[m].now, states[m].jobs[id], labels[m].act);
    TouchLeaves(cfg, states, labels, m, id, Conv, task);
  }

  /** A retried task starts again no sooner than its delay after the retry. */
  lemma DelayHonoured(
    cfg: Config, states: seq<State>, labels: seq<Label>, k: nat, m: nat, id: JobId, side: Side, task: nat)
    requires cfg.Valid() && Run(cfg, states, labels) && Consecutive(states, labels, k, m, id, side, task)
    requires labels[k].act.ConvRetry? || labels[k].act.HookRetry?
    ensures labels[m].act.ConvStart? || labels[m].act.HookStart?
    ensures states[m].now >= states[k].now + labels[k].act.delay
  {
    NextFinds(cfg, states, labels, k, m, id, side, task);
    assert StepAt(cfg, states, labels, k) && StepAt(cfg, states, labels, m);
  }

  lemma RejectFails(now: Time, j: Job, act: Act)
    requires act.ConvReject? && act.report != Lost(false) && j.row.status in {Queued, Active}
    ensures var r := RowAfter(now, j, act); r.status == Failed && r.finishedAt == Some(now)
  {
  }

  /** After a condemning outcome the task's next act, unless its worker dies, is to fail the job, and
      where that commits on an unfinished job, the job is failed at once. */
  lemma DamnedFails(cfg: Config, states: seq<State>, labels: seq<Label>, k: nat, m: nat, id: JobId, task: nat)
    requires cfg.Valid() && Run(cfg, states, labels) && Consecutive(states, labels, k, m, id, Conv, task)
    requires Damning(states[k].jobs[id].row, labels[k].act)
    ensures labels[m].act.ConvRetry? || labels[m].act.ConvReject?
    ensures var act := labels[m].act;
            act.ConvReject? && act.report != Lost(false) && states[m].jobs[id].row.status in {Queued, Active} ==>
              && id in states[m + 1].jobs && states[m + 1].jobs[id].row.status == Failed
              && states[m + 1].jobs[id].row.finishedAt == Some(states[m].now)
  {
    assert StepAt(cfg, states, labels, m);
    ConvOrder(cfg, states, labels, k, m, id, task);
    var act := labels[m].act;
    if act.ConvReject? && act.report != Lost(false) && states[m].jobs[id].row.status in {Queued, Active} {
      RejectFails(states[m].now, states[m].jobs[id], act);
    }
  }

  /** A returning task is gone; its own lock goes with it exactly when it returns success. */
  lemma LeaveLocks(cfg: Config, now: Time, j: Job, act: Act, side: Side)
    requires cfg.Valid() && CanAct(cfg, now, j, act) && On(act, side) && (act.ConvLeave? || act.HookLeave?)
    ensures act.i < |LaneOf(j, side).tasks|
    ensures var l, l' := LaneOf(j, side), LaneOf(Effect(cfg, now, j, act), side);
            var t := l.tasks[act.i];
            l'.lock == if t.At(Leave(true)) && l.lock.Some? && l.lock.value.owner == t.id then None else l.lock
  {
  }

  /** A task returns success exactly when its notification follows a finished conversion. */
  lemma ReturnsSuccess(
    cfg: Config, states: seq<State>, labels: seq<Label>, a: nat, k: nat, m: nat, id: JobId, task: nat)
    requires cfg.Valid() && Run(cfg, states, labels)
    requires Consecutive(states, labels, a, k, id, Conv, task) && labels[k].act.ConvNotify?
    requires Consecutive(states, labels, k, m, id, Conv, task) && labels[m].act.ConvLeave?
    requires labels[a].act.ConvFinish? || labels[a].act.ConvReject?
    ensures TaskAt(states, labels, m, id, Conv, task).At(Leave(true)) <==> labels[a].act.ConvFinish?
  {
    assert StepAt(cfg, states, labels, k);
    NextFinds(cfg, states, labels, a, k, id, Conv, task);
    NextFinds(cfg, states, labels, k, m, id, Conv, task);
  }

  /** The lock a task holds is freed by its return from a finished conversion, and kept by its return
      from a failed one. */
  lemma ReturnFreesLock(
    cfg: Config, states: seq<State>, labels: seq<Label>, a: nat, k: nat, m: nat, id: JobId, task: nat)
    requires cfg.Valid() && Run(cfg, states, labels)
    requires Consecutive(states, labels, a, k, id, Conv, task) && labels[k].act.ConvNotify?
    requires Consecutive(states, labels, k, m, id, Conv, task) && labels[m].act.ConvLeave?
    ensures labels[a].act.ConvFinish? || labels[a].act.ConvReject?
    ensures id in states[m + 1].jobs && Gone(states[m + 1].jobs[id].conv, task)
    ensures var lock, lock' := states[m].jobs[id].conv.lock, states[m + 1].jobs[id].conv.lock;
            lock' == if labels[a].act.ConvFinish? && lock.Some? && lock.value.owner == task then None else lock
  {
    assert StepAt(cfg, states, labels, m);
    ConvOrder(cfg, states, labels, a, k, id, task);
    ReturnsSuccess(cfg, states, labels, a, k, m, id, task);
    LeaveLocks(cfg, states[m].now, states[m].jobs[id], labels[m].act, Conv);
    TouchLeaves(cfg, states, labels, m, id, Conv, task);
  }

  /** A delivered webhook frees its lock when its task returns. */
  lemma DeliveryFreesLock(cfg: Config, states: seq<State>, labels: seq<Label>, k: nat, m: nat, id: JobId, task: nat)
    requires cfg.Valid() && Run(cfg, states, labels) && Consecutive(states, labels, k, m, id, Hook, task)
    requires labels[m].act.HookLeave?
    ensures labels[k].act.HookDeliver? || labels[k].act.HookLoad?
    ensures id in states[m + 1].jobs && Gone(states[m + 1].jobs[id].hook, task)
    ensures var lock, lock' := states[m].jobs[id].hook.lock, states[m + 1].jobs[id].hook.lock;
            lock' == if labels[k].act.HookDeliver? && lock.Some? && lock.value.owner == task then None else lock
  {
    assert StepAt(cfg, states, labels, m);
    HookOrder(cfg, states, labels, k, m, id, task);
    NextFinds(cfg, states, labels, k, m, id, Hook, task);
    LeaveLocks(cfg, states[m].now, states[m].jobs[id], labels[m].act, Hook);
    TouchLeaves(cfg, states, labels, m, id, Hook, task);
  }

  // ----- webhooks -----

  /** Delivery rows flagged as dead letters are failed last attempts; so is one about to be flagged. */
  predicate LastFailure(cfg: Config, d: Delivery) { !d.delivered && d.attempt == cfg.webhook.maxRetry + 1 }

  predicate DeliveriesOk(cfg: Config, j: Job) {
    && (forall d <- j.row.deliveries :: d.deadLetter ==> LastFailure(cfg, d))
    && (forall t <- j.hook.tasks :: t.retried <= cfg.webhook.maxRetry)
    && (forall t <- j.hook.tasks :: t.phase.Running? && t.phase.pc.Flag? ==>
          t.phase.pc.delivery < |j.row.deliveries| && LastFailure(cfg, j.row.deliveries[t.phase.pc.delivery]))
  }

  /** Rows only gain deliveries, and an existing one only its flag. */
  predicate DeliveriesKept(r: Row, r': Row) {
    && |r.deliveries| <= |r'.deliveries|
    && forall i :: 0 <= i < |r.deliveries| ==>
         r'.deliveries[i].delivered == r.deliveries[i].delivered && r'.deliveries[i].attempt == r.deliveries[i].attempt
  }

  lemma HookTasksOk(cfg: Config, now: Time, j: Job, act: Act)
    requires cfg.Valid() && CanAct(cfg, now, j, act) && DeliveriesOk(cfg, j)
    ensures forall t <- HookAfter(cfg, now, j, act).tasks :: t.retried <= cfg.webhook.maxRetry
  {
    if OnHook(act) {
      HookTouch(cfg, now, j, act);
    } else {
      var mv := OffMoves(cfg, now, j, act, Hook);
    }
  }

  lemma RowDeliveries(cfg: Config, now: Time, j: Job, act: Act)
    requires cfg.Valid() && CanAct(cfg, now, j, act) && DeliveriesOk(cfg, j)
    ensures DeliveriesKept(j.row, RowAfter(now, j, act))
    ensures forall d <- RowAfter(now, j, act).deliveries :: d.deadLetter ==> LastFailure(cfg, d)
  {
    var r, r' := j.row, RowAfter(now, j, act);
    if act.HookFlag? {
      var t := j.hook.tasks[act.i];
      assert t in j.hook.tasks;
      forall d | d in r'.deliveries && d.deadLetter ensures LastFailure(cfg, d) {
        var i :| 0 <= i < |r'.deliveries| && r'.deliveries[i] == d;
        if i != t.phase.pc.delivery { assert r.deliveries[i] in r.deliveries; }
      }
    } else if !act.HookDeliver? {
      assert r'.deliveries == r.deliveries;
    }
  }

  lemma FlagsOk(cfg: Config, now: Time, j: Job, act: Act, t: Task)
    requires cfg.Valid() && CanAct(cfg, now, j, act) && DeliveriesOk(cfg, j)
    requires t in HookAfter(cfg, now, j, act).tasks && t.phase.Running? && t.phase.pc.Flag?
    ensures var ds := RowAfter(now, j, act).deliveries;
            t.phase.pc.delivery < |ds| && LastFailure(cfg, ds[t.phase.pc.delivery])
  {
    RowDeliveries(cfg, now, j, act);
    if t !in j.hook.tasks {
      if OnHook(act) {
        HookTouch(cfg, now, j, act);
        assert j.hook.tasks[act.i] in j.hook.tasks;
      } else {
        var mv := OffMoves(cfg, now, j, act, Hook);
      }
    }
  }

  lemma ActDeliveries(cfg: Config, now: Time, j: Job, act: Act)
    requires cfg.Valid() && CanAct(cfg, now, j, act) && DeliveriesOk(cfg, j)
    ensures DeliveriesOk(cfg, Effect(cfg, now, j, act))
  {
    HookTasksOk(cfg, now, j, act);
    RowDeliveries(cfg, now, j, act);
    forall t <- HookAfter(cfg, now, j, act).tasks | t.phase.Running? && t.phase.pc.Flag?
      ensures var ds := RowAfter(now, j, act).deliveries;
              t.phase.pc.delivery < |ds| && LastFailure(cfg, ds[t.phase.pc.delivery])
    {
      FlagsOk(cfg, now, j, act, t);
    }
  }

  lemma {:induction false} RunDeliveries(cfg: Config, states: seq<State>, labels: seq<Label>, k: nat, id: JobId)
    requires cfg.Valid() && Run(cfg, states, labels) && k < |states| && id in states[k].jobs
    ensures DeliveriesOk(cfg, states[k].jobs[id])
  {
    if k > 0 {
      var s, l := states[k - 1], labels[k - 1];
      assert StepAt(cfg, states, labels, k - 1);
      if id in s.jobs {
        RunDeliveries(cfg, states, labels, k - 1, id);
        if ActOf(s, l).Some? && ActOf(s, l).value.0 == id {
          ActDeliveries(cfg, s.now, s.jobs[id], ActOf(s, l).value.1);
        }
      }
    }
  }

  /** In every state of every run a dead letter is the row of an undelivered last attempt. */
  lemma DeadLettersAreLast(cfg: Config, states: seq<State>, labels: seq<Label>, k: nat, id: JobId, i: nat)
    requires cfg.Valid() && Run(cfg, states, labels) && k < |states| && id in states[k].jobs
    requires i < |states[k].jobs[id].row.deliveries| && states[k].jobs[id].row.deliveries[i].deadLetter
    ensures var d := states[k].jobs[id].row.deliveries[i]; !d.delivered && d.attempt == cfg.webhook.maxRetry + 1
  {
    RunDeliveries(cfg, states, labels, k, id);
    assert states[k].jobs[id].row.deliveries[i] in states[k].jobs[id].row.deliveries;
  }

  /** Only jobs with a callback have webhook tasks, and the sweeper only means to tell such. */
  predicate CalledBack(s: State) {
    && (forall id <- s.jobs :: s.jobs[id].hook.tasks != [] ==> s.jobs[id].row.callback)
    && (match s.sweep
        case Exhaust(id, callback, _) => callback && id in s.jobs ==> s.jobs[id].row.callback
        case Tell(id, _) => id in s.jobs ==> s.jobs[id].row.callback
        case Gaps(gaps) => forall g <- gaps :: g.id in s.jobs ==> s.jobs[g.id].row.callback
        case GapLog(_, gaps) => forall g <- gaps :: g.id in s.jobs ==> s.jobs[g.id].row.callback
        case _ => true)
  }

  lemma ActCallback(cfg: Config, now: Time, j: Job, act: Act)
    requires cfg.Valid() && CanAct(cfg, now, j, act)
    ensures RowAfter(now, j, act).callback == j.row.callback
    ensures j.hook.tasks == [] && HookAfter(cfg, now, j, act).tasks != [] ==> act.SweepHook? || j.row.callback
  {
  }

  lemma StepCallback(cfg: Config, s: State, l: Label)
    requires cfg.Valid() && Enabled(cfg, s, l) && CalledBack(s)
    ensures var jobs' := JobsAfter(cfg, s, l);
            && (forall id <- s.jobs :: id in jobs' && jobs'[id].row.callback == s.jobs[id].row.callback)
            && (forall id <- jobs' :: jobs'[id].hook.tasks != [] ==> jobs'[id].row.callback)
  {
    if ActOf(s, l).Some? {
      ActCallback(cfg, s.now, s.jobs[ActOf(s, l).value.0], ActOf(s, l).value.1);
    }
  }

  /** Where the sweeper goes, it goes with what it has read, of rows that do not change callbacks. */
  lemma SweepCallback(cfg: Config, s: State, l: Label)
    requires cfg.Valid() && Enabled(cfg, s, l) && CalledBack(s)
    ensures CalledBack(State(s.now, s.jobs, SweepAfter(cfg, s, l)))
  {
    if l.GapBegin? && l.missed.Some? {
      assert forall g <- l.missed.value :: IsGap(cfg, s, g);
    }
  }

  lemma CallbackStays(cfg: Config, s: State, l: Label)
    requires cfg.Valid() && Enabled(cfg, s, l) && CalledBack(s) && SweepOk(s.jobs, SweepAfter(cfg, s, l))
    ensures CalledBack(Step(cfg, s, l))
  {
    SweepCallback(cfg, s, l);
    StepCallback(cfg, s, l);
  }

  lemma {:induction false} RunCallback(cfg: Config, states: seq<State>, labels: seq<Label>, k: nat)
    requires cfg.Valid() && Run(cfg, states, labels) && k < |states|
    ensures CalledBack(states[k])
  {
    if k > 0 {
      assert StepAt(cfg, states, labels, k - 1);
      RunCallback(cfg, states, labels, k - 1);
      RunSound(cfg, states, labels, k - 1);
      SweepMoves(cfg, states[k - 1], labels[k - 1]);
      CallbackStays(cfg, states[k - 1], labels[k - 1]);
    }
  }

  /** In every state of every run a webhook task belongs to a job with a callback. */
  lemma WebhooksOnlyForCallbacks(cfg: Config, states: seq<State>, labels: seq<Label>, k: nat, id: JobId)
    requires cfg.Valid() && Run(cfg, states, labels) && k < |states| && id in states[k].jobs
    requires states[k].jobs[id].hook.tasks != []
    ensures states[k].jobs[id].row.callback
  {
    RunCallback(cfg, states, labels, k);
  }

  /** A notification that reaches the queue leaves the webhook of a job with a callback locked. */
  lemma NotificationLocks(cfg: Config, now: Time, j: Job, i: nat, rep: Report)
    requires cfg.Valid() && CanAct(cfg, now, j, ConvNotify(i, rep)) && rep != Lost(false)
    ensures j.row.callback ==> Effect(cfg, now, j, ConvNotify(i, rep)).hook.Locked(now)
    ensures !j.row.callback ==> Effect(cfg, now, j, ConvNotify(i, rep)).hook == j.hook
  {
    TtlPositive(cfg.webhook);
  }
}
