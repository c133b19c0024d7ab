/** One job's tasks of one type in asynq, with the per-job unique lock
    (internal/queue/queue.go, asynq.Unique): the lock is taken by a successful enqueue,
    released by the owning task's success, and otherwise lapses when it expires. */
module Lanes {
  import opened Wrappers
  import opened RetryBudget

  type Time = int

  datatype Params = Params(policy: Policy, maxRetry: nat, timeout: nat) {
    predicate Valid() { policy.Valid() }
    function LockTtl(): Duration
      requires policy.schedule != []
    {
      Ttl(policy, maxRetry, timeout)
    }
  }

  /** Where a handler stands between two of its effects. */
  datatype Pc =
    | Load | Activate | Convert | Record | Finish | Reject | Notify(ok: bool)
    | Deliver | Flag(delivery: nat)
    | Leave(ok: bool) | Retrying  // returned to asynq: success, no further retry, or retry

  datatype Phase = Waiting(readyAt: Time) | Running(started: Time, pc: Pc)

  /** A live task. `retried` counts the attempts that have failed, `waited` the time it
      was ready but not picked up. */
  datatype Task = Task(id: nat, enqueued: Time, retried: nat, waited: Duration, phase: Phase) {
    predicate At(pc: Pc) { phase.Running? && phase.pc == pc }
  }

  datatype Lock = Lock(owner: nat, expiry: Time)

  datatype Lane = Lane(tasks: seq<Task>, lock: Option<Lock>, nextId: nat) {
    predicate Locked(now: Time) { lock.Some? && now < lock.value.expiry }
    predicate Runs(i: nat, pc: Pc) { i < |tasks| && tasks[i].At(pc) }
    predicate RunsAny(i: nat) { i < |tasks| && tasks[i].phase.Running? }
  }

  const EMPTY_LANE := Lane([], None, 0)

  /** EnqueueContext: a live lock makes it a no-op (asynq.ErrDuplicateTask). */
  function Enqueue(p: Params, now: Time, l: Lane): Lane
    requires p.Valid()
  {
    if l.Locked(now) then l
    else
      var task, lock := Task(l.nextId, now, 0, 0, Waiting(now)), Lock(l.nextId, now + p.LockTtl());
      Lane(l.tasks + [task], Some(lock), l.nextId + 1)
  }

  predicate CanStart(now: Time, l: Lane, i: nat) {
    i < |l.tasks| && l.tasks[i].phase.Waiting? && l.tasks[i].phase.readyAt <= now
  }

  function Start(now: Time, l: Lane, i: nat): Lane
    requires CanStart(now, l, i)
  {
    var t := l.tasks[i];
    l.(tasks := l.tasks[i := t.(waited := t.waited + (now - t.phase.readyAt), phase := Running(now, Load))])
  }

  function Goto(l: Lane, i: nat, pc: Pc): Lane
    requires l.RunsAny(i)
  {
    var t := l.tasks[i];
    l.(tasks := l.tasks[i := t.(phase := Running(t.phase.started, pc))])
  }

  function Without(ts: seq<Task>, i: nat): seq<Task>
    requires i < |ts|
  {
    ts[..i] + ts[i + 1..]
  }

  /** Archive: the task is gone, the lock stays until it expires. */
  function Archive(l: Lane, i: nat): Lane
    requires i < |l.tasks|
  {
    l.(tasks := Without(l.tasks, i))
  }

  /** Success: the task is gone and its own lock with it. */
  function Complete(l: Lane, i: nat): Lane
    requires i < |l.tasks|
  {
    var owned := l.lock.Some? && l.lock.value.owner == l.tasks[i].id;
    Lane(Without(l.tasks, i), if owned then None else l.lock, l.nextId)
  }

  /** A failed attempt: archived once the retry budget is spent (msg.Retried >= msg.Retry),
      otherwise due again after the delay. */
  function Retry(p: Params, now: Time, l: Lane, i: nat, delay: Duration): Lane
    requires l.RunsAny(i)
  {
    var t := l.tasks[i];
    if t.retried >= p.maxRetry then Archive(l, i)
    else l.(tasks := l.tasks[i := t.(retried := t.retried + 1, phase := Waiting(now + delay))])
  }

  // ----- hypothesis: attempts within their timeout, total waiting below the margin -----

  predicate TaskTimely(p: Params, now: Time, t: Task) {
    match t.phase
    case Waiting(readyAt) => t.waited < SAFETY_MARGIN && t.waited + (now - readyAt) < SAFETY_MARGIN
    case Running(started, _) => t.waited < SAFETY_MARGIN && now - started <= p.timeout
  }

  predicate Timely(p: Params, now: Time, l: Lane) {
    forall i :: 0 <= i < |l.tasks| ==> TaskTimely(p, now, l.tasks[i])
  }

  // ----- invariant -----

  /** The time a task has used up is accounted for by its failed attempts, their backoff
      and its waiting. */
  predicate Accounted(p: Params, t: Task)
    requires p.Valid()
  {
    && t.retried <= p.maxRetry
    && 0 <= t.waited
    && (if t.phase.Waiting? then t.phase.readyAt else t.phase.started) - t.enqueued
       <= t.retried * p.timeout + CeilingSum(p.policy, t.retried) + t.waited
  }

  /** At most one live task, accounted for, whose own lock is in place. */
  predicate Exclusive(p: Params, l: Lane)
    requires p.Valid()
  {
    && |l.tasks| <= 1
    && (|l.tasks| == 1 ==>
          && Accounted(p, l.tasks[0])
          && l.lock == Some(Lock(l.tasks[0].id, l.tasks[0].enqueued + p.LockTtl())))
  }

  lemma TtlPositive(p: Params)
    requires p.Valid()
    ensures p.LockTtl() >= SAFETY_MARGIN > 0
  {
    CeilingSumMonotone(p.policy, 0, p.maxRetry);
    MoreAttempts(0, p.maxRetry + 1, p.timeout);
  }

  /** A timely task's lock has not expired. */
  lemma LockOutlivesTask(p: Params, now: Time, t: Task)
    requires p.Valid() && Accounted(p, t) && TaskTimely(p, now, t)
    ensures now < t.enqueued + p.LockTtl()
  {
    CeilingSumMonotone(p.policy, t.retried, p.maxRetry);
    MoreAttempts(t.retried + 1, p.maxRetry + 1, p.timeout);
    assert (t.retried + 1) * p.timeout == t.retried * p.timeout + p.timeout;
  }

  lemma EnqueueExclusive(p: Params, now: Time, l: Lane)
    requires p.Valid() && Exclusive(p, l) && Timely(p, now, l)
    ensures Exclusive(p, Enqueue(p, now, l))
    ensures !l.Locked(now) ==> l.tasks == []
  {
    if |l.tasks| == 1 {
      LockOutlivesTask(p, now, l.tasks[0]);
    }
  }

  lemma StartExclusive(p: Params, now: Time, l: Lane, i: nat)
    requires p.Valid() && Exclusive(p, l) && CanStart(now, l, i)
    ensures Exclusive(p, Start(now, l, i))
  {
  }

  lemma RetryExclusive(p: Params, now: Time, l: Lane, i: nat, delay: Duration)
    requires p.Valid() && Exclusive(p, l) && l.RunsAny(i) && Timely(p, now, l)
    requires MayDelay(p.policy, l.tasks[i].retried, delay)
    ensures Exclusive(p, Retry(p, now, l, i, delay))
  {
    var t := l.tasks[0];
    DelayWithinCeiling(p.policy, t.retried, delay);
    assert (t.retried + 1) * p.timeout == t.retried * p.timeout + p.timeout;
  }
}
