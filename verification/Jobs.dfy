/** Job rows, the append-only event log and the guarded transitions of
    internal/jobs/repo.go; delivery rows of internal/webhook/repo.go. */
module Jobs {
  import opened Wrappers
  import opened Lanes

  type JobId = nat

  datatype Status = AwaitingUpload | Queued | Active | Done | Failed | Canceled
  datatype Engine = Image | Document | Html | Audio | AV | OtherEngine

  /** job_events.detail->>'action', None when the detail carries no action tag. */
  datatype Action = NoAction | ReconcilerRecovery | ReconcilerExhausted | WebhookGapRecovered

  datatype Event = Event(from: Option<Status>, to: Status, action: Action)

  datatype Delivery = Delivery(attempt: nat, delivered: bool, deadLetter: bool)

  /** A row of jobs with the rows of the child tables that belong to it. */
  datatype Row = Row(
    status: Status, engine: Engine, callback: bool, attempts: nat,
    createdAt: Time, startedAt: Option<Time>, finishedAt: Option<Time>,
    events: seq<Event>, outputs: nat, deliveries: seq<Delivery>)

  predicate Terminal(r: Row) { r.status == Done || r.status == Failed }

  predicate Routable(e: Engine) { e != OtherEngine }

  function NewRow(now: Time, engine: Engine, callback: bool): Row {
    Row(Queued, engine, callback, 0, now, None, None, [Event(None, Queued, NoAction)], 0, [])
  }

  /** Repo.transition: refused unless the row's status is allowed; otherwise the `updated`
      row and the event that records the change commit together. */
  function Transition(r: Row, to: Status, allowedFrom: set<Status>, action: Action, updated: Row): Option<Row> {
    if r.status !in allowedFrom then None
    else Some(updated.(events := r.events + [Event(Some(r.status), to, action)]))
  }

  function MarkActive(r: Row, now: Time): Option<Row> {
    var startedAt := if r.startedAt.Some? then r.startedAt else Some(now);
    Transition(r, Active, {Queued, Active}, NoAction,
               r.(status := Active, startedAt := startedAt, attempts := r.attempts + 1))
  }

  function MarkDone(r: Row, now: Time): Option<Row> {
    Transition(r, Done, {Active}, NoAction, r.(status := Done, finishedAt := Some(now)))
  }

  function MarkFailed(r: Row, now: Time, action: Action): Option<Row> {
    Transition(r, Failed, {Queued, Active}, action, r.(status := Failed, finishedAt := Some(now)))
  }

  function RequeueStale(r: Row): Option<Row> {
    Transition(r, Queued, {Queued, Active}, ReconcilerRecovery, r.(status := Queued))
  }

  /** RecordWebhookGapRecovered bypasses the transition guard: it logs the status it is given. */
  function RecordGap(r: Row, status: Status): Row {
    r.(events := r.events + [Event(Some(status), status, WebhookGapRecovered)])
  }

  function AddOutput(r: Row): Row { r.(outputs := r.outputs + 1) }

  function RecordAttempt(r: Row, attempt: nat, delivered: bool): Row {
    r.(deliveries := r.deliveries + [Delivery(attempt, delivered, false)])
  }

  function MarkDeadLetter(r: Row, i: nat): Row {
    if i >= |r.deliveries| then r
    else r.(deliveries := r.deliveries[i := r.deliveries[i].(deadLetter := true)])
  }

  function CountTo(es: seq<Event>, to: Status): nat {
    if es == [] then 0 else CountTo(es[..|es| - 1], to) + (if es[|es| - 1].to == to then 1 else 0)
  }

  /** RecoveryCount. */
  function CountRecoveries(es: seq<Event>): nat {
    if es == [] then 0
    else CountRecoveries(es[..|es| - 1]) + (if es[|es| - 1].action == ReconcilerRecovery then 1 else 0)
  }

  function Recoveries(r: Row): nat { CountRecoveries(r.events) }

  lemma AppendEvent(es: seq<Event>, e: Event)
    ensures forall to :: CountTo(es + [e], to) == CountTo(es, to) + (if e.to == to then 1 else 0)
    ensures CountRecoveries(es + [e]) == CountRecoveries(es) + (if e.action == ReconcilerRecovery then 1 else 0)
  {
    assert (es + [e])[..|es|] == es;
  }

  // ----- what every reachable row satisfies -----

  /** The event log is a path: NULL to queued first, every event starting where the one
      before it ended, ending at the current status. */
  predicate Chain(es: seq<Event>, status: Status) {
    && es != []
    && es[0].from == None && es[0].to == Queued
    && (forall i :: 0 < i < |es| ==> es[i].from == Some(es[i - 1].to))
    && es[|es| - 1].to == status
  }

  /** The row agrees with its event log. */
  predicate LogOk(r: Row) {
    && r.status in {Queued, Active, Done, Failed}
    && Chain(r.events, r.status)
    && (r.finishedAt.Some? <==> Terminal(r))
    && (r.startedAt.Some? <==> r.attempts > 0)
    && r.attempts == CountTo(r.events, Active)
  }

  predicate RowOk(r: Row) {
    LogOk(r) && (r.status == Done ==> r.outputs > 0)
  }

  /** What one commit may do to a row, whoever makes it. */
  predicate Evolves(r: Row, r': Row) {
    && r.events <= r'.events
    && r'.engine == r.engine && r'.callback == r.callback && r'.createdAt == r.createdAt
    && (Terminal(r) ==> r'.status == r.status && r'.finishedAt == r.finishedAt && r'.attempts == r.attempts)
    && (r.startedAt.Some? ==> r'.startedAt == r.startedAt)
    && r.outputs <= r'.outputs
    && |r.deliveries| <= |r'.deliveries|
    && r.attempts <= r'.attempts
  }

  lemma NewRowOk(now: Time, engine: Engine, callback: bool)
    ensures RowOk(NewRow(now, engine, callback)) && Recoveries(NewRow(now, engine, callback)) == 0
  {
    AppendEvent([], Event(None, Queued, NoAction));
    assert [] + [Event(None, Queued, NoAction)] == [Event(None, Queued, NoAction)];
  }

  lemma MarkActiveOk(r: Row, now: Time)
    requires LogOk(r)
    ensures MarkActive(r, now).Some? <==> r.status == Queued || r.status == Active
    ensures MarkActive(r, now).Some? ==>
            var r' := MarkActive(r, now).value;
            RowOk(r') && Evolves(r, r') && r'.attempts == r.attempts + 1 && Recoveries(r') == Recoveries(r)
  {
    AppendEvent(r.events, Event(Some(r.status), Active, NoAction));
  }

  lemma MarkDoneOk(r: Row, now: Time)
    requires LogOk(r)
    ensures MarkDone(r, now).Some? <==> r.status == Active
    ensures MarkDone(r, now).Some? ==>
            var r' := MarkDone(r, now).value;
            LogOk(r') && Evolves(r, r') && Terminal(r') && r'.attempts == r.attempts && Recoveries(r') == Recoveries(r)
  {
    AppendEvent(r.events, Event(Some(r.status), Done, NoAction));
  }

  lemma MarkFailedOk(r: Row, now: Time, action: Action)
    requires LogOk(r) && action != ReconcilerRecovery
    ensures MarkFailed(r, now, action).Some? <==> !Terminal(r)
    ensures MarkFailed(r, now, action).Some? ==>
              var r' := MarkFailed(r, now, action).value;
              RowOk(r') && Evolves(r, r') && Terminal(r') && r'.attempts == r.attempts
                  && Recoveries(r') == Recoveries(r)
  {
    AppendEvent(r.events, Event(Some(r.status), Failed, action));
  }

  lemma RequeueOk(r: Row)
    requires LogOk(r)
    ensures RequeueStale(r).Some? <==> !Terminal(r)
    ensures RequeueStale(r).Some? ==>
              var r' := RequeueStale(r).value;
              RowOk(r') && Evolves(r, r') && !Terminal(r') && r'.attempts == r.attempts
                  && Recoveries(r') == Recoveries(r) + 1
  {
    AppendEvent(r.events, Event(Some(r.status), Queued, ReconcilerRecovery));
  }

  lemma RecordGapOk(r: Row, status: Status)
    requires RowOk(r) && Terminal(r) && status == r.status
    ensures var r' := RecordGap(r, status);
            RowOk(r') && Evolves(r, r') && r'.status == r.status && r'.attempts == r.attempts
                && Recoveries(r') == Recoveries(r)
  {
    AppendEvent(r.events, Event(Some(status), status, WebhookGapRecovered));
  }

  /** RecordWebhookGapRecovered, unguarded as it is, keeps the log a chain exactly when the
      status it is handed is still the job's, and is not active. */
  lemma RecordGapExact(r: Row, status: Status)
    requires LogOk(r)
    ensures LogOk(RecordGap(r, status)) <==> status == r.status && status != Active
  {
    var es := r.events + [Event(Some(status), status, WebhookGapRecovered)];
    AppendEvent(r.events, es[|r.events|]);
    assert es[|r.events| - 1].to == r.status;
  }

  // ----- the repository as it is written -----

  datatype RepoError = NoError | NotFound | IllegalTransition | InsertFailed

  /** Repo over the tables jobs, job_events and job_outputs, each method one transaction. */
  class Repo {
    var rows: map<JobId, Row>

    ghost predicate Valid()
      reads this
    {
      forall id <- rows :: LogOk(rows[id])
    }

    constructor ()
      ensures Valid() && rows == map[]
    {
      rows := map[];
    }

    /** A repeated id violates the primary key, and the transaction rolls back. */
    method Create(id: JobId, now: Time, engine: Engine, callback: bool) returns (err: RepoError)
      requires Valid()
      modifies this
      ensures Valid()
      ensures err == if id in old(rows) then InsertFailed else NoError
      ensures rows == if err.NoError? then old(rows)[id := NewRow(now, engine, callback)] else old(rows)
    {
      if id in rows {
        return InsertFailed;
      }
      err := NoError;
      NewRowOk(now, engine, callback);
      rows := rows[id := NewRow(now, engine, callback)];
    }

    /** transition: `updated` is the row the caller's UPDATE produces. */
    method Change(id: JobId, to: Status, allowedFrom: set<Status>, action: Action, updated: Row)
      returns (err: RepoError)
      modifies this
      ensures err ==
                if id !in old(rows) then NotFound
                else if old(rows)[id].status !in allowedFrom then IllegalTransition else NoError
      ensures err.NoError? ==>
                rows == old(rows)[id := Transition(old(rows)[id], to, allowedFrom, action, updated).value]
      ensures !err.NoError? ==> rows == old(rows)
    {
      if id !in rows {
        return NotFound;
      }
      var from := rows[id].status;
      if from !in allowedFrom {
        return IllegalTransition;
      }
      rows := rows[id := updated.(events := rows[id].events + [Event(Some(from), to, action)])];
      return NoError;
    }

    method Activate(id: JobId, now: Time) returns (err: RepoError)
      requires Valid()
      modifies this
      ensures Valid()
      ensures err.NoError? <==> id in old(rows) && old(rows)[id].status in {Queued, Active}
      ensures rows == if err.NoError? then old(rows)[id := MarkActive(old(rows)[id], now).value] else old(rows)
    {
      if id !in rows {
        return NotFound;
      }
      var r := rows[id];
      if MarkActive(r, now).Some? { MarkActiveOk(r, now); }
      var startedAt := if r.startedAt.Some? then r.startedAt else Some(now);
      var updated := r.(status := Active, startedAt := startedAt, attempts := r.attempts + 1);
      err := Change(id, Active, {Queued, Active}, NoAction, updated);
    }

    method Finish(id: JobId, now: Time) returns (err: RepoError)
      requires Valid()
      modifies this
      ensures Valid()
      ensures err.NoError? <==> id in old(rows) && old(rows)[id].status == Active
      ensures rows == if err.NoError? then old(rows)[id := MarkDone(old(rows)[id], now).value] else old(rows)
    {
      if id !in rows {
        return NotFound;
      }
      var r := rows[id];
      if MarkDone(r, now).Some? { MarkDoneOk(r, now); }
      err := Change(id, Done, {Active}, NoAction, r.(status := Done, finishedAt := Some(now)));
    }

    method Fail(id: JobId, now: Time, action: Action) returns (err: RepoError)
      requires Valid() && action != ReconcilerRecovery
      modifies this
      ensures Valid()
      ensures err.NoError? <==> id in old(rows) && !Terminal(old(rows)[id])
      ensures rows == if err.NoError? then old(rows)[id := MarkFailed(old(rows)[id], now, action).value] else old(rows)
    {
      if id !in rows {
        return NotFound;
      }
      var r := rows[id];
      MarkFailedOk(r, now, action);
      err := Change(id, Failed, {Queued, Active}, action, r.(status := Failed, finishedAt := Some(now)));
    }

    method Requeue(id: JobId) returns (err: RepoError)
      requires Valid()
      modifies this
      ensures Valid()
      ensures err.NoError? <==> id in old(rows) && !Terminal(old(rows)[id])
      ensures rows == if err.NoError? then old(rows)[id := RequeueStale(old(rows)[id]).value] else old(rows)
    {
      if id !in rows {
        return NotFound;
      }
      RequeueOk(rows[id]);
      err := Change(id, Queued, {Queued, Active}, ReconcilerRecovery, rows[id].(status := Queued));
    }
  }
}
