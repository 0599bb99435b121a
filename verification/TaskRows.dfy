/** Task rows as the maintenance scripts see them, and the oldest-first batches they work in.
    NULL is None; a table maps primary keys to rows. */
module TaskRows {
  import opened Wrappers

  datatype Task = Task(
    workspaceId: Option<string>, packId: Option<string>, status: Option<string>, createdAt: Option<int>,
    context: Option<map<string, string>>, contextBytes: Option<nat>, resultBytes: Option<nat>)

  type Table = map<string, Task>

  const DAY := 86400

  const FINISHED: seq<string> := ["succeeded", "failed", "cancelled_by_user"]

  function OrDefault(given: seq<string>, default: seq<string>): seq<string> { if given == [] then default else given }

  /** `created_at < now() - n days`, a condition that is left out for n <= 0; NULL is never older. */
  predicate OldEnough(task: Task, olderThanDays: int, now: int) {
    olderThanDays > 0 ==> task.createdAt.Some? && task.createdAt.value < now - olderThanDays * DAY
  }

  /** `workspace_id = :workspace_id`, left out when none, or an empty one, is given. */
  predicate InWorkspace(task: Task, workspaceId: Option<string>) {
    workspaceId.Some? && workspaceId.value != "" ==> task.workspaceId == workspaceId
  }

  predicate OneOf(value: Option<string>, choices: seq<string>) { value.Some? && value.value in choices }

  /** ORDER BY created_at ASC puts NULL last. */
  predicate NotNewer(a: Option<int>, b: Option<int>) { b.None? || (a.Some? && a.value <= b.value) }

  /** A choice ORDER BY created_at ASC LIMIT can make among the candidates; ties fall either way. */
  ghost predicate IsOldestBatch(table: Table, candidates: set<string>, limit: nat, batch: set<string>) {
    && batch <= candidates <= table.Keys
    && |batch| == (if |candidates| < limit then |candidates| else limit)
    && forall x, y :: x in batch && y in candidates - batch ==> NotNewer(table[x].createdAt, table[y].createdAt)
  }

  method Oldest(table: Table, candidates: set<string>) returns (oldest: string)
    requires candidates <= table.Keys && candidates != {}
    ensures oldest in candidates
    ensures forall y :: y in candidates ==> NotNewer(table[oldest].createdAt, table[y].createdAt)
  {
    oldest :| oldest in candidates;
    var rest := candidates - {oldest};
    while rest != {}
      invariant rest <= candidates && oldest in candidates - rest
      invariant forall y :: y in candidates - rest ==> NotNewer(table[oldest].createdAt, table[y].createdAt)
    {
      var y :| y in rest;
      if !NotNewer(table[oldest].createdAt, table[y].createdAt) { oldest := y; }
      rest := rest - {y};
    }
  }

  method SelectOldest(table: Table, candidates: set<string>, limit: nat) returns (batch: set<string>)
    requires candidates <= table.Keys
    ensures IsOldestBatch(table, candidates, limit, batch)
    ensures forall x, y :: x in batch && y in candidates - batch && table[y].createdAt.Some? ==>
              table[x].createdAt.Some? && table[x].createdAt.value <= table[y].createdAt.value
  {
    batch := {};
    var rest := candidates;
    while rest != {} && |batch| < limit
      invariant batch !! rest && batch + rest == candidates && |batch| <= limit && |batch| + |rest| == |candidates|
      invariant forall x, y :: x in batch && y in rest ==> NotNewer(table[x].createdAt, table[y].createdAt)
    {
      var x := Oldest(table, rest);
      batch, rest := batch + {x}, rest - {x};
    }
    assert candidates - batch == rest;
  }

  // ---------- The conditions in terms of a row's own columns ----------

  /** With a limit of n > 0 days: created, and more than n days before now. */
  ghost predicate IsOlder(task: Task, days: int, now: int) {
    days <= 0 || (task.createdAt.Some? && task.createdAt.value + days * 86400 < now)
  }

  /** One of the given statuses, or of the three finished ones when none is given. */
  ghost predicate HasStatus(task: Task, statuses: seq<string>) {
    task.status.Some?
    && if |statuses| > 0 then task.status.value in statuses
       else
         task.status.value == "succeeded" || task.status.value == "failed" || task.status.value == "cancelled_by_user"
  }

  /** Any workspace, unless one is given by a name that is not empty. */
  ghost predicate IsInWorkspace(task: Task, workspaceId: Option<string>) {
    workspaceId == None || workspaceId == Some("") || task.workspaceId == workspaceId
  }

  lemma ConditionsAre(task: Task, days: int, now: int, statuses: seq<string>, workspaceId: Option<string>)
    ensures OldEnough(task, days, now) <==> IsOlder(task, days, now)
    ensures OneOf(task.status, OrDefault(statuses, FINISHED)) <==> HasStatus(task, statuses)
    ensures InWorkspace(task, workspaceId) <==> IsInWorkspace(task, workspaceId)
  {
  }
}
