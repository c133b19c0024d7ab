/** Versioned presets and their shadowing views: internal/presets/repo.go, and their use by
    handleCreateJob in internal/api/handlers.go. */
module Presets {
  import opened Wrappers

  datatype Scope = System | User

  /** What a version belongs to; system presets have no client. */
  datatype Key = Key(scope: Scope, client: Option<nat>, name: string) {
    predicate Owned() { scope == User <==> client.Some? }
  }

  datatype Content = Content(target: string, options: map<string, string>, description: string)

  datatype Row = Row(id: nat, key: Key, version: nat, content: Content, active: bool)

  type Table = seq<Row>

  // ----- operations -----

  /** One call of the repository; `id` is the generated primary key. */
  datatype Op =
    | Create(key: Key, content: Content, id: nat)
    | Update(key: Key, content: Content, id: nat)
    | Deactivate(key: Key)

  datatype Answer = Done(version: nat) | AlreadyExists | NotFound | Violation

  /** COALESCE(MAX(version), 0) over the first `n` rows of a key. */
  function MaxVersion(t: Table, n: nat, key: Key): nat
    requires n <= |t|
  {
    if n == 0 then 0
    else
      var rest := MaxVersion(t, n - 1, key);
      if t[n - 1].key == key && t[n - 1].version > rest then t[n - 1].version else rest
  }

  /** The active row of a key among the first `n`, if any. */
  function ActiveAt(t: Table, n: nat, key: Key): (i: Option<nat>)
    requires n <= |t|
    ensures i.Some? ==> i.value < n && t[i.value].key == key && t[i.value].active
    ensures i.None? ==> forall k :: 0 <= k < n ==> !(t[k].key == key && t[k].active)
  {
    if n == 0 then None
    else if t[n - 1].key == key && t[n - 1].active then Some(n - 1)
    else ActiveAt(t, n - 1, key)
  }

  /** The primary key, the unique indexes and the owner check admit a row. */
  predicate Admits(t: Table, row: Row) {
    row.key.Owned() && forall r <- t :: r.id != row.id && !(r.key == row.key && r.version == row.version)
  }

  function Retired(t: Table, key: Key, version: nat): (t': Table)
    ensures |t'| == |t|
  {
    seq(|t|, i requires 0 <= i < |t| =>
      if t[i].key == key && t[i].version == version then t[i].(active := false) else t[i])
  }

  /** The row an operation inserts. */
  function NewRow(t: Table, op: Op): Row
    requires !op.Deactivate?
    requires op.Update? ==> ActiveAt(t, |t|, op.key).Some?
  {
    var version := if op.Create? then MaxVersion(t, |t|, op.key) + 1 else t[ActiveAt(t, |t|, op.key).value].version + 1;
    Row(op.id, op.key, version, op.content, true)
  }

  /** The table and the answer after one serial call. */
  function Effect(t: Table, op: Op): (Table, Answer) {
    var active := ActiveAt(t, |t|, op.key);
    match op
    case Create(key, content, id) =>
      if active.Some? then (t, AlreadyExists)
      else if !key.Owned() then (t, Violation)
      else
        var row := NewRow(t, op);
        if Admits(t, row) then (t + [row], Done(row.version)) else (t, AlreadyExists)
    case Update(key, content, id) =>
      if active.None? then (t, NotFound)
      else
        var row := NewRow(t, op);
        var retired := Retired(t, key, t[active.value].version);
        if Admits(retired, row) then (retired + [row], Done(row.version)) else (t, Violation)
    case Deactivate(key) =>
      if active.None? then (t, NotFound)
      else (t[active.value := t[active.value].(active := false)], Done(t[active.value].version))
  }

  function After(t: Table, ops: seq<Op>): Table
    decreases |ops|
  {
    if ops == [] then t else After(Effect(t, ops[0]).0, ops[1..])
  }

  /** The repository: each method is one serial call. */
  class Repo {
    var rows: Table

    constructor ()
      ensures rows == []
    {
      rows := [];
    }

    method Create(key: Key, content: Content, id: nat) returns (a: Answer)
      modifies this
      ensures (rows, a) == Effect(old(rows), Op.Create(key, content, id))
    {
      var active := ActiveAt(rows, |rows|, key);
      if active.Some? {
        return AlreadyExists;
      }
      if !key.Owned() {
        return Violation;
      }
      var row := Row(id, key, MaxVersion(rows, |rows|, key) + 1, content, true);
      if !Admits(rows, row) {
        return AlreadyExists;
      }
      rows := rows + [row];
      return Done(row.version);
    }

    method Update(key: Key, content: Content, id: nat) returns (a: Answer)
      modifies this
      ensures (rows, a) == Effect(old(rows), Op.Update(key, content, id))
    {
      var active := ActiveAt(rows, |rows|, key);
      if active.None? {
        return NotFound;
      }
      var current := rows[active.value].version;
      var retired := Retired(rows, key, current);
      var row := Row(id, key, current + 1, content, true);
      if !Admits(retired, row) {
        return Violation;
      }
      rows := retired + [row];
      return Done(current + 1);
    }

    method Deactivate(key: Key) returns (a: Answer)
      modifies this
      ensures (rows, a) == Effect(old(rows), Op.Deactivate(key))
    {
      var active := ActiveAt(rows, |rows|, key);
      if active.None? {
        return NotFound;
      }
      var row := rows[active.value];
      rows := rows[active.value := row.(active := false)];
      return Done(row.version);
    }
  }

  // ----- the table invariant -----

  /** How many of the first `n` rows belong to a key. */
  function Count(t: Table, n: nat, key: Key): nat
    requires n <= |t|
  {
    if n == 0 then 0 else Count(t, n - 1, key) + if t[n - 1].key == key then 1 else 0
  }

  /** The versions of each key are 1, 2, 3, … in insertion order; an active row is the last of
      its key; ids are unique; owners are sound. */
  ghost predicate RowOk(t: Table, i: nat)
    requires i < |t|
  {
    && t[i].key.Owned()
    && t[i].version == Count(t, i, t[i].key) + 1
    && (t[i].active ==> t[i].version == Count(t, |t|, t[i].key))
  }

  ghost predicate Inv(t: Table) {
    && (forall i :: 0 <= i < |t| ==> RowOk(t, i))
    && (forall i, j :: 0 <= i < j < |t| ==> t[i].id != t[j].id)
  }

  /** Rows never disappear, move or change, except that active ones may be retired. */
  ghost predicate Evolves(t: Table, t': Table) {
    && |t| <= |t'|
    && forall i :: 0 <= i < |t| ==> t'[i] == t[i] || t'[i] == t[i].(active := false)
  }

  lemma {:induction false} CountSame(t: Table, t': Table, n: nat, key: Key)
    requires n <= |t| && n <= |t'| && forall i :: 0 <= i < n ==> t[i].key == t'[i].key
    ensures Count(t, n, key) == Count(t', n, key)
  {
    if n > 0 { CountSame(t, t', n - 1, key); }
  }

  lemma {:induction false} CountMonotone(t: Table, m: nat, n: nat, key: Key)
    requires m <= n <= |t|
    ensures Count(t, m, key) <= Count(t, n, key)
    ensures (exists i :: m <= i < n && t[i].key == key) ==> Count(t, m, key) < Count(t, n, key)
    decreases n
  {
    if m < n { CountMonotone(t, m, n - 1, key); }
  }

  /** A version number names at most one row of a key. */
  lemma VersionNamesRow(t: Table, i: nat, j: nat)
    requires Inv(t) && i < |t| && j < |t| && t[i].key == t[j].key && t[i].version == t[j].version
    ensures i == j
  {
    assert RowOk(t, i) && RowOk(t, j);
    if i < j { CountMonotone(t, i, j, t[i].key); }
    if j < i { CountMonotone(t, j, i, t[i].key); }
  }

  lemma {:induction false} MaxIsCount(t: Table, n: nat, key: Key)
    requires Inv(t) && n <= |t|
    ensures MaxVersion(t, n, key) == Count(t, n, key)
  {
    if n > 0 { assert RowOk(t, n - 1); MaxIsCount(t, n - 1, key); }
  }

  /** The active row of a key is its newest version. */
  lemma ActiveIsNewest(t: Table, i: nat)
    requires Inv(t) && i < |t| && t[i].active
    ensures t[i].version == MaxVersion(t, |t|, t[i].key)
    ensures forall j :: 0 <= j < |t| && t[j].key == t[i].key ==> t[j].version <= t[i].version
    ensures forall j :: 0 <= j < |t| && t[j].key == t[i].key && t[j].active ==> j == i
  {
    var key := t[i].key;
    MaxIsCount(t, |t|, key);
    assert RowOk(t, i);
    forall j | 0 <= j < |t| && t[j].key == key ensures t[j].version <= t[i].version && (t[j].active ==> j == i) {
      assert RowOk(t, j);
      CountMonotone(t, j, |t|, key);
      if t[j].active { VersionNamesRow(t, i, j); }
    }
  }

  /** Every version number from 1 to the newest is some row's. */
  lemma {:induction false} VersionsAreFull(t: Table, n: nat, key: Key, v: nat) returns (i: nat)
    requires Inv(t) && n <= |t| && 1 <= v <= Count(t, n, key)
    ensures i < n && t[i].key == key && t[i].version == v
    decreases n
  {
    assert RowOk(t, n - 1);
    if t[n - 1].key == key && t[n - 1].version == v {
      i := n - 1;
    } else {
      i := VersionsAreFull(t, n - 1, key, v);
    }
  }

  /** The next version is free, so no insertion collides on a unique index. */
  lemma NextVersionFree(t: Table, key: Key, id: nat, content: Content)
    requires Inv(t) && key.Owned() && forall r <- t :: r.id != id
    ensures Admits(t, Row(id, key, Count(t, |t|, key) + 1, content, true))
  {
    forall r | r in t && r.key == key ensures r.version != Count(t, |t|, key) + 1 {
      var i :| 0 <= i < |t| && t[i] == r;
      assert RowOk(t, i);
      CountMonotone(t, i, |t|, key);
    }
  }

  // ----- what operations keep -----

  /** Retiring the active row of a key leaves a sound table without one. */
  lemma RetireKeeps(t: Table, t': Table)
    requires Inv(t) && Evolves(t, t') && |t'| == |t|
    ensures Inv(t')
  {
    forall i | 0 <= i < |t'| ensures RowOk(t', i) {
      assert RowOk(t, i);
      CountSame(t, t', i, t[i].key);
      CountSame(t, t', |t|, t[i].key);
    }
  }

  lemma AppendKeeps(t: Table, row: Row)
    requires Inv(t) && row.key.Owned() && row.version == Count(t, |t|, row.key) + 1
    requires (forall r <- t :: r.id != row.id) && forall r <- t :: !(r.key == row.key && r.active)
    ensures Inv(t + [row])
  {
    var t' := t + [row];
    forall i | 0 <= i < |t'| ensures RowOk(t', i) {
      if i < |t| {
        assert RowOk(t, i);
        CountSame(t, t', i, t[i].key);
        CountSame(t, t', |t|, t[i].key);
      } else {
        CountSame(t, t', |t|, row.key);
      }
    }
  }

  lemma RetiredFacts(t: Table, key: Key, i: nat)
    requires Inv(t) && i < |t| && t[i].key == key && t[i].active
    ensures var t' := Retired(t, key, t[i].version);
            && Evolves(t, t') && Inv(t') && Count(t', |t'|, key) == t[i].version
            && forall r <- t' :: !(r.key == key && r.active)
  {
    var t' := Retired(t, key, t[i].version);
    RetireKeeps(t, t');
    ActiveIsNewest(t, i);
    MaxIsCount(t, |t|, key);
    CountSame(t, t', |t|, key);
  }

  lemma RetiredIds(t: Table, key: Key, version: nat, id: nat)
    requires forall r <- t :: r.id != id
    ensures forall r <- Retired(t, key, version) :: r.id != id
  {
    var t' := Retired(t, key, version);
    forall r | r in t' ensures r.id != id {
      var k :| 0 <= k < |t'| && t'[k] == r;
      assert t[k] in t;
    }
  }

  /** Each call keeps the invariant, and changes no row except by retiring active ones. */
  lemma EffectKeeps(t: Table, op: Op)
    requires Inv(t)
    ensures Inv(Effect(t, op).0) && Evolves(t, Effect(t, op).0)
  {
    var active := ActiveAt(t, |t|, op.key);
    match op
    case Create(key, content, id) =>
      if Effect(t, op).1.Done? {
        MaxIsCount(t, |t|, key);
        AppendKeeps(t, NewRow(t, op));
      }
    case Update(key, content, id) =>
      if Effect(t, op).1.Done? {
        RetiredFacts(t, key, active.value);
        AppendKeeps(Retired(t, key, t[active.value].version), NewRow(t, op));
      }
    case Deactivate(key) =>
      if active.Some? {
        RetireKeeps(t, Effect(t, op).0);
      }
  }

  /** A call answers with an error exactly for the reasons it documents: with a new id, neither a
      creation nor an update ever collides. */
  lemma NoCollision(t: Table, op: Op)
    requires Inv(t) && (op.Deactivate? || forall r <- t :: r.id != op.id)
    ensures var active := exists r <- t :: r.key == op.key && r.active;
            match Effect(t, op).1
            case AlreadyExists => op.Create? && active
            case NotFound => !op.Create? && !active
            case Violation => op.Create? && !op.key.Owned()
            case Done(v) => v == Count(t, |t|, op.key) + (if op.Create? || op.Update? then 1 else 0)
  {
    var active := ActiveAt(t, |t|, op.key);
    if active.Some? {
      RetiredFacts(t, op.key, active.value);
      assert RowOk(t, active.value);
    }
    match op
    case Create(key, content, id) =>
      MaxIsCount(t, |t|, key);
      if key.Owned() && active.None? {
        NextVersionFree(t, key, id, content);
      }
    case Update(key, content, id) =>
      if active.Some? {
        var retired := Retired(t, key, t[active.value].version);
        RetiredIds(t, key, t[active.value].version, id);
        NextVersionFree(retired, key, id, content);
      }
    case Deactivate(key) =>
  }

  /** A refused call changes nothing. A successful one concerns its own key only: a creation or
      an update leaves exactly the row it was asked for active, a deactivation none. */
  lemma CallTakesEffect(t: Table, op: Op)
    requires Inv(t)
    ensures var (t', answer) := Effect(t, op);
            && (!answer.Done? ==> t' == t)
            && (forall i :: 0 <= i < |t| && t[i].key != op.key ==> t'[i] == t[i])
            && (answer.Done? && op.Deactivate? ==> |t'| == |t| && forall r <- t' :: !(r.key == op.key && r.active))
            && (answer.Done? && !op.Deactivate? ==>
                  && |t'| == |t| + 1 && t'[|t|] == Row(op.id, op.key, answer.version, op.content, true)
                  && forall r <- t' :: r.key == op.key && r.active ==> r == t'[|t|])
  {
    var active := ActiveAt(t, |t|, op.key);
    if active.Some? {
      ActiveIsNewest(t, active.value);
      RetiredFacts(t, op.key, active.value);
    }
  }

  lemma EvolvesTransitive(a: Table, b: Table, c: Table)
    requires Evolves(a, b) && Evolves(b, c)
    ensures Evolves(a, c)
  {
  }

  /** Over every serial run: the invariant holds, and no row's content ever changes. */
  lemma {:induction false} RunKeeps(t: Table, ops: seq<Op>)
    requires Inv(t)
    ensures Inv(After(t, ops)) && Evolves(t, After(t, ops))
    decreases |ops|
  {
    if ops != [] {
      var t' := Effect(t, ops[0]).0;
      EffectKeeps(t, ops[0]);
      RunKeeps(t', ops[1..]);
      EvolvesTransitive(t, t', After(t', ops[1..]));
    }
  }

  ghost predicate HasVersion(t: Table, key: Key, v: nat) {
    exists i :: 0 <= i < |t| && t[i].key == key && t[i].version == v
  }

  /** In every table reached from the empty one, each key has the versions 1 to n, each exactly
      once, and at most one active row, which is version n. */
  lemma ReachableTables(ops: seq<Op>, key: Key)
    ensures var t := After([], ops);
            var n := MaxVersion(t, |t|, key);
            && (forall v: nat :: HasVersion(t, key, v) <==> 1 <= v <= n)
            && (forall i, j :: 0 <= i < j < |t| && t[i].key == t[j].key == key ==> t[i].version < t[j].version)
            && (forall i :: 0 <= i < |t| && t[i].key == key && t[i].active ==> t[i].version == n)
  {
    RunKeeps([], ops);
    var t := After([], ops);
    var n := MaxVersion(t, |t|, key);
    MaxIsCount(t, |t|, key);
    forall v: nat | 1 <= v <= n ensures HasVersion(t, key, v) {
      var i := VersionsAreFull(t, |t|, key, v);
    }
    forall i | 0 <= i < |t| && t[i].key == key ensures 1 <= t[i].version <= n && (t[i].active ==> t[i].version == n) {
      assert RowOk(t, i);
      CountMonotone(t, i, |t|, key);
    }
    forall i, j | 0 <= i < j < |t| && t[i].key == t[j].key == key ensures t[i].version < t[j].version {
      assert RowOk(t, i) && RowOk(t, j);
      CountMonotone(t, i, j, key);
    }
  }

  // ----- the three views -----

  /** The scope condition of Resolve and GetForClient; a NULL client owns nothing. */
  predicate Own(r: Row, client: Option<nat>) { r.key.scope == User && client.Some? && r.key.client == client }
  predicate Shared(r: Row) { r.key.scope == System && r.key.client.None? }
  predicate Matches(r: Row, client: Option<nat>, name: string) {
    r.key.name == name && r.active && (Shared(r) || Own(r, client))
  }

  /** ORDER BY (scope='user') DESC, version DESC. */
  predicate Precedes(a: Row, b: Row) {
    (a.key.scope == User && b.key.scope == System) || (a.key.scope == b.key.scope && a.version > b.version)
  }

  /** Resolve and GetForClient: the first match of the first `n` rows in that order. */
  function Resolve(t: Table, n: nat, client: Option<nat>, name: string): Option<Row>
    requires n <= |t|
  {
    if n == 0 then None
    else
      var best := Resolve(t, n - 1, client, name);
      if Matches(t[n - 1], client, name) && (best.None? || Precedes(t[n - 1], best.value)) then Some(t[n - 1]) else best
  }

  /** An active row of the client's own shadows a system row of the same name. */
  ghost predicate Shadowed(t: Table, client: Option<nat>, name: string) {
    exists u <- t :: Own(u, client) && u.key.name == name && u.active
  }

  /** A row of ListForClient. */
  ghost predicate Listed(t: Table, client: Option<nat>, includeInactive: bool, r: Row) {
    && r in t
    && (Own(r, client) || (Shared(r) && !Shadowed(t, client, r.key.name)))
    && (includeInactive || r.active)
  }

  /** ListForClient over the first `n` rows, in table order. */
  ghost function ListForClient(t: Table, n: nat, client: Option<nat>, includeInactive: bool): seq<Row>
    requires n <= |t|
  {
    if n == 0 then []
    else
      var last := if Listed(t, client, includeInactive, t[n - 1]) then [t[n - 1]] else [];
      ListForClient(t, n - 1, client, includeInactive) + last
  }

  lemma {:induction false} ListHoldsListed(t: Table, n: nat, client: Option<nat>, includeInactive: bool)
    requires Inv(t) && n <= |t|
    ensures var list := ListForClient(t, n, client, includeInactive);
            && (forall r :: r in list <==> r in t[..n] && Listed(t, client, includeInactive, r))
            && (forall i, j :: 0 <= i < j < |list| ==> list[i].id != list[j].id)
  {
    if n > 0 {
      ListHoldsListed(t, n - 1, client, includeInactive);
      assert t[..n] == t[..n - 1] + [t[n - 1]];
      var before := ListForClient(t, n - 1, client, includeInactive);
      forall i | 0 <= i < |before| ensures before[i].id != t[n - 1].id {
        assert before[i] in before;
        var k :| 0 <= k < n - 1 && t[k] == before[i];
      }
    }
  }

  lemma {:induction false} ResolveIsBest(t: Table, n: nat, client: Option<nat>, name: string)
    requires n <= |t|
    ensures var best := Resolve(t, n, client, name);
            && (best.Some? ==> best.value in t[..n] && Matches(best.value, client, name))
            && (forall r <- t[..n] :: Matches(r, client, name) ==> best.Some? && !Precedes(r, best.value))
  {
    if n > 0 {
      ResolveIsBest(t, n - 1, client, name);
      assert t[..n] == t[..n - 1] + [t[n - 1]];
    }
  }

  /** Two matching rows of the same scope are the same row. */
  lemma OneMatchPerScope(t: Table, a: Row, b: Row, client: Option<nat>, name: string)
    requires Inv(t) && a in t && b in t && Matches(a, client, name)
    requires Matches(b, client, name) && a.key.scope == b.key.scope
    ensures a == b
  {
    var i :| 0 <= i < |t| && t[i] == a;
    var j :| 0 <= j < |t| && t[j] == b;
    assert a.key == b.key;
    ActiveIsNewest(t, i);
  }

  /** The views agree: the active merged list holds, for each name, exactly the row that Resolve
      and GetForClient return, and nothing for a name they do not resolve. */
  lemma ListedIffResolved(t: Table, client: Option<nat>, r: Row)
    requires Inv(t)
    ensures Listed(t, client, false, r) <==> Resolve(t, |t|, client, r.key.name) == Some(r)
  {
    var name := r.key.name;
    var best := Resolve(t, |t|, client, name);
    ResolveIsBest(t, |t|, client, name);
    assert t[..|t|] == t;
    if Listed(t, client, false, r) {
      assert Matches(r, client, name);
      if best.value.key.scope == r.key.scope {
        OneMatchPerScope(t, r, best.value, client, name);
      }
    }
    if best == Some(r) && Shared(r) {
      forall u | u in t && Own(u, client) && u.key.name == name && u.active ensures false {
        assert Precedes(u, r);
      }
    }
  }

  /** The active merged list has one row per name, the one Resolve returns, for exactly the names
      that resolve. */
  lemma ListIsResolved(t: Table, client: Option<nat>, name: string)
    requires Inv(t)
    ensures var list := ListForClient(t, |t|, client, false);
            && (forall i, j :: 0 <= i < j < |list| ==> list[i].key.name != list[j].key.name)
            && (forall r <- list :: r.key.name == name ==> Resolve(t, |t|, client, name) == Some(r))
            && (Resolve(t, |t|, client, name).Some? ==> Resolve(t, |t|, client, name).value in list)
  {
    var list := ListForClient(t, |t|, client, false);
    ListHoldsListed(t, |t|, client, false);
    assert t[..|t|] == t;
    forall r | r in list ensures Resolve(t, |t|, client, r.key.name) == Some(r) {
      ListedIffResolved(t, client, r);
    }
    forall i, j | 0 <= i < j < |list| ensures list[i].key.name != list[j].key.name {
      assert list[i] in list && list[j] in list;
    }
    var best := Resolve(t, |t|, client, name);
    if best.Some? {
      ResolveIsBest(t, |t|, client, name);
      ListedIffResolved(t, client, best.value);
    }
  }

  /** The full list adds the retired versions, and nothing else: of the client's own rows all, of a
      system name's rows all or none, all exactly when the name does not resolve to the client's own. */
  lemma FullListIs(t: Table, client: Option<nat>, r: Row)
    requires Inv(t)
    ensures var full := ListForClient(t, |t|, client, true);
            && (r in ListForClient(t, |t|, client, false) <==> r in full && r.active)
            && (Own(r, client) ==> (r in full <==> r in t))
            && (Shared(r) ==>
                  var best := Resolve(t, |t|, client, r.key.name);
                  r in full <==> r in t && !(best.Some? && Own(best.value, client)))
            && (r in full ==> Own(r, client) || Shared(r))
  {
    ListHoldsListed(t, |t|, client, true);
    ListHoldsListed(t, |t|, client, false);
    assert t[..|t|] == t;
    ResolveExact(t, client, r.key.name);
    if Shadowed(t, client, r.key.name) {
      var u :| u in t && Own(u, client) && u.key.name == r.key.name && u.active;
      assert Matches(u, client, r.key.name);
    }
  }

  /** Resolving finds something exactly when an active row is visible, and then the client's own
      version if there is one. */
  lemma ResolveExact(t: Table, client: Option<nat>, name: string)
    requires Inv(t)
    ensures var best := Resolve(t, |t|, client, name);
            && (best.Some? <==> exists r <- t :: Matches(r, client, name))
            && (best.Some? ==> best.value in t && Matches(best.value, client, name))
            && (best.Some? ==> (Own(best.value, client) <==> Shadowed(t, client, name)))
            && (best.Some? ==> forall r <- t :: r.key == best.value.key ==> r.version <= best.value.version)
  {
    var best := Resolve(t, |t|, client, name);
    ResolveIsBest(t, |t|, client, name);
    assert t[..|t|] == t;
    if best.Some? {
      ListedIffResolved(t, client, best.value);
      var i :| 0 <= i < |t| && t[i] == best.value;
      ActiveIsNewest(t, i);
      forall u | u in t && Own(u, client) && u.key.name == name && u.active ensures Own(best.value, client) {
        assert Matches(u, client, name);
      }
    }
  }

  /** What a client creates or updates is what its next request resolves. */
  lemma OwnCallResolves(t: Table, op: Op, client: nat)
    requires Inv(t) && !op.Deactivate? && op.key.scope == User && op.key.client == Some(client)
    requires Effect(t, op).1.Done?
    ensures var (t', answer) := Effect(t, op);
            Resolve(t', |t'|, Some(client), op.key.name) == Some(Row(op.id, op.key, answer.version, op.content, true))
  {
    var t' := Effect(t, op).0;
    EffectKeeps(t, op);
    CallTakesEffect(t, op);
    var row := t'[|t|];
    assert row in t' && Matches(row, Some(client), op.key.name);
    ListedIffResolved(t', Some(client), row);
  }

  // ----- presets in job creation -----

  datatype Job = Job(target: string, options: map<string, string>, presetName: string, presetVersion: nat)

  /** What the option validators of a request make of a preset's target and options: the normalised
      ones, or a refusal. */
  type Validator = Content -> Option<(string, map<string, string>)>

  /** handleCreateJob: the preset is read from one table, its content validated, and the preset
      checked again just before the insert in another table. */
  function PresetJob(before: Table, now: Table, client: nat, name: string, validate: Validator): Option<Job> {
    match Resolve(before, |before|, Some(client), name)
    case None => None
    case Some(p) =>
      match validate(p.content)
      case None => None
      case Some((target, options)) =>
        match Resolve(now, |now|, Some(client), name)
        case None => None
        case Some(q) =>
          if q.id != p.id || q.version != p.version then None
          else Some(Job(target, options, p.key.name, p.version))
  }

  lemma SameIdSameRow(t: Table, t': Table, p: Row, q: Row)
    requires Inv(t) && Inv(t') && Evolves(t, t') && p in t && q in t' && p.id == q.id && p.active == q.active
    ensures p == q
  {
    var i :| 0 <= i < |t| && t[i] == p;
    var j :| 0 <= j < |t'| && t'[j] == q;
    assert t'[i].id == q.id;
    assert i == j;
  }

  /** Whatever calls come between, a job made from a preset carries the validated content of the row
      that is in force when the job is inserted; and a job is made exactly when that row was already
      in force when the preset was read, and is valid. */
  lemma PresetJobIsCurrent(before: Table, ops: seq<Op>, client: nat, name: string, validate: Validator)
    requires Inv(before)
    ensures var now := After(before, ops);
            var p, q := Resolve(before, |before|, Some(client), name), Resolve(now, |now|, Some(client), name);
            var job := PresetJob(before, now, client, name, validate);
            && (job.Some? <==> p.Some? && p == q && validate(q.value.content).Some?)
            && (job.Some? ==>
                  var (target, options) := validate(q.value.content).value;
                  job.value == Job(target, options, name, q.value.version))
  {
    var now := After(before, ops);
    RunKeeps(before, ops);
    ResolveExact(before, Some(client), name);
    ResolveExact(now, Some(client), name);
    var p, q := Resolve(before, |before|, Some(client), name), Resolve(now, |now|, Some(client), name);
    if p.Some? && q.Some? && p.value.id == q.value.id {
      SameIdSameRow(before, now, p.value, q.value);
    }
  }
}
