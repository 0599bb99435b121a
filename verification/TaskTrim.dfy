/** The batched trim: drop duplicated heavy payloads from the execution context of old finished
    tasks, oldest rows first, until a batch comes back short. */
module TaskTrim {
  import opened Counting
  import opened TaskRows
  import opened Wrappers

  type Context = map<string, string>

  datatype Filter = Filter(
    packIds: seq<string>, statuses: seq<string>, olderThanDays: int, workspaceId: Option<string>, now: int)

  const DEFAULT_PACK_IDS: seq<string> := ["ig_analyze_pinned_reference", "ig_analyze_following"]

  const DUPLICATED: set<string> := {"result", "step_outputs", "outputs"}

  predicate Heavy(context: Context) {
    "conversation_state" in context
    || ("workflow_result" in context && ("result" in context || "step_outputs" in context || "outputs" in context))
  }

  predicate IsCandidate(task: Task, f: Filter) {
    && task.context.Some?
    && OneOf(task.packId, OrDefault(f.packIds, DEFAULT_PACK_IDS))
    && OneOf(task.status, OrDefault(f.statuses, FINISHED))
    && Heavy(task.context.value)
    && OldEnough(task, f.olderThanDays, f.now)
    && InWorkspace(task, f.workspaceId)
  }

  function TrimmedContext(context: Context): Context {
    if "workflow_result" in context then context - DUPLICATED - {"conversation_state"}
    else context - {"conversation_state"}
  }

  function Trimmed(task: Task): Task
    requires task.context.Some?
  {
    task.(context := Some(TrimmedContext(task.context.value)))
  }

  function Candidates(table: Table, f: Filter): set<string> {
    set id | id in table && IsCandidate(table[id], f)
  }

  // ---------- What is trimmed, in terms of a row's own columns ----------

  ghost predicate IsTrimmedPack(task: Task, packIds: seq<string>) {
    task.packId.Some?
    && if |packIds| > 0 then task.packId.value in packIds
       else task.packId.value == "ig_analyze_pinned_reference" || task.packId.value == "ig_analyze_following"
  }

  /** A conversation state, or a duplicate beside a workflow result. */
  ghost predicate HasSurplus(task: Task) {
    task.context.Some?
    && var c := task.context.value;
       || "conversation_state" in c
       || exists key :: key in {"result", "step_outputs", "outputs"} && key in c && "workflow_result" in c
  }

  ghost predicate IsDue(task: Task, f: Filter) {
    && HasSurplus(task) && IsTrimmedPack(task, f.packIds) && HasStatus(task, f.statuses)
    && IsOlder(task, f.olderThanDays, f.now) && IsInWorkspace(task, f.workspaceId)
  }

  lemma CandidateIsDue(task: Task, f: Filter)
    ensures IsCandidate(task, f) <==> IsDue(task, f)
  {
    ConditionsAre(task, f.olderThanDays, f.now, f.statuses, f.workspaceId);
  }

  lemma CandidatesAreDue(table: Table, f: Filter)
    ensures Candidates(table, f) == set id | id in table && IsDue(table[id], f)
  {
    forall id | id in table ensures id in Candidates(table, f) <==> IsDue(table[id], f) {
      CandidateIsDue(table[id], f);
    }
  }

  /** Raising the age limit never adds a row. */
  lemma HigherLimitTrimsLess(table: Table, f: Filter, days: int)
    requires f.olderThanDays <= days
    ensures Candidates(table, f.(olderThanDays := days)) <= Candidates(table, f)
  {
    CandidatesAreDue(table, f);
    CandidatesAreDue(table, f.(olderThanDays := days));
  }

  /** Trimming a set of rows at once. */
  function TrimRows(table: Table, ids: set<string>): Table
    requires forall id :: id in ids && id in table ==> table[id].context.Some?
  {
    map id | id in table :: if id in ids then Trimmed(table[id]) else table[id]
  }

  /** What a trim drops and what it keeps: exactly the conversation state and, beside a workflow result,
      the three duplicates of it; so a row is heavy exactly if a trim changes it. */
  lemma TrimDropsExactly(context: Context)
    ensures var c := TrimmedContext(context);
            && (forall key :: key in c <==>
                  && key in context && key != "conversation_state"
                  && !("workflow_result" in context && key in DUPLICATED))
            && (forall key :: key in c ==> c[key] == context[key])
            && ("workflow_result" in context ==>
                  "workflow_result" in c && c["workflow_result"] == context["workflow_result"])
            && !Heavy(c)
            && (Heavy(context) <==> c != context)
    // what goes is a duplicate of a workflow result, unless there is a conversation state
    ensures context.Keys - TrimmedContext(context).Keys <= DUPLICATED <==> "conversation_state" !in context
  {
    var c := TrimmedContext(context);
    if "conversation_state" in context { assert "conversation_state" in context.Keys - c.Keys; }
    if !Heavy(context) {
      assert c.Keys == context.Keys;
      assert c == context;
    }
  }

  lemma TrimmedIsNoCandidate(task: Task, f: Filter)
    requires task.context.Some?
    ensures !IsCandidate(Trimmed(task), f)
  {
    TrimDropsExactly(task.context.value);
  }

  lemma TrimmingRemovesCandidates(table: Table, f: Filter, ids: set<string>)
    requires ids <= Candidates(table, f)
    ensures Candidates(TrimRows(table, ids), f) == Candidates(table, f) - ids
  {
    var after := TrimRows(table, ids);
    forall id | id in table ensures id in Candidates(after, f) <==> id in Candidates(table, f) - ids {
      if id in ids { TrimmedIsNoCandidate(table[id], f); }
    }
  }

  /** The rows taken are due, and none is newer than a row that is still due. */
  ghost predicate TakesOldestDue(before: Table, after: Table, batch: set<string>, f: Filter) {
    && (forall id :: id in batch ==> id in before && IsDue(before[id], f))
    && (forall x, y :: x in batch && y in after && IsDue(after[y], f) && after[y].createdAt.Some? ==>
          x in before && before[x].createdAt.Some? && before[x].createdAt.value <= after[y].createdAt.value)
  }

  lemma OldestBatchIsTaken(table: Table, f: Filter, limit: nat, batch: set<string>)
    requires IsOldestBatch(table, Candidates(table, f), limit, batch)
    ensures TakesOldestDue(table, TrimRows(table, batch), batch, f)
  {
    var after := TrimRows(table, batch);
    CandidatesAreDue(table, f);
    TrimmingRemovesCandidates(table, f, batch);
    CandidatesAreDue(after, f);
    forall x, y | x in batch && y in after && IsDue(after[y], f) && after[y].createdAt.Some?
      ensures table[x].createdAt.Some? && table[x].createdAt.value <= after[y].createdAt.value
    {
      assert y in Candidates(after, f);
      assert y in Candidates(table, f) - batch;
    }
  }

  /** Exactly the due rows change. */
  ghost predicate ChangesExactlyDue(before: Table, after: Table, f: Filter) {
    before.Keys == after.Keys && forall id :: id in before ==> (after[id] != before[id] <==> IsDue(before[id], f))
  }

  /** A full trim changes exactly the rows that are due. */
  lemma TrimChangesDueRows(table: Table, f: Filter)
    ensures ChangesExactlyDue(table, TrimRows(table, Candidates(table, f)), f)
  {
    CandidatesAreDue(table, f);
    forall id | id in table && IsDue(table[id], f) ensures Trimmed(table[id]) != table[id] {
      CandidateIsDue(table[id], f);
      TrimDropsExactly(table[id].context.value);
    }
  }

  lemma TrimmingInTwo(table: Table, f: Filter, a: set<string>, b: set<string>)
    requires a !! b && a + b <= Candidates(table, f)
    ensures forall id :: id in b ==> id in TrimRows(table, a) && TrimRows(table, a)[id].context.Some?
    ensures TrimRows(TrimRows(table, a), b) == TrimRows(table, a + b)
  {
  }

  /** A second trim finds nothing to do. */
  lemma SecondTrimFindsNothing(table: Table, f: Filter)
    ensures var after := TrimRows(table, Candidates(table, f));
            Candidates(after, f) == {} && TrimRows(after, Candidates(after, f)) == after
  {
    TrimmingRemovesCandidates(table, f, Candidates(table, f));
  }

  /** After trimming `done`, one more oldest batch extends it; a short batch finishes the candidates. */
  lemma BatchExtends(start: Table, f: Filter, done: set<string>, batch: set<string>, limit: nat)
    requires done <= Candidates(start, f)
    requires IsOldestBatch(TrimRows(start, done), Candidates(start, f) - done, limit, batch)
    ensures batch !! done && done + batch <= Candidates(start, f)
    ensures forall id :: id in batch ==> id in TrimRows(start, done) && TrimRows(start, done)[id].context.Some?
    ensures TrimRows(TrimRows(start, done), batch) == TrimRows(start, done + batch)
    ensures Candidates(TrimRows(start, done + batch), f) == Candidates(start, f) - (done + batch)
    ensures |done + batch| == |done| + |batch| && |batch| <= limit
    ensures |batch| < limit ==> done + batch == Candidates(start, f)
  {
    var all := Candidates(start, f);
    TrimmingInTwo(start, f, done, batch);
    TrimmingRemovesCandidates(start, f, done + batch);
    if |batch| < limit {
      SameWhenFull(batch, all - done);
      assert done + (all - done) == all;
    }
  }

  /** The rows of a number of full batches. */
  function FullBatches(batches: nat, batchSize: nat): nat {
    if batches == 0 then 0 else FullBatches(batches - 1, batchSize) + batchSize
  }

  /** The batches needed for n candidates, the last of them short. */
  function BatchesFor(n: nat, batchSize: nat): nat
    requires batchSize > 0
  {
    if n < batchSize then 1 else BatchesFor(n - batchSize, batchSize) + 1
  }

  lemma MultipleGrows(k: int, n: int)
    requires n > 0
    ensures k >= 1 ==> k * n >= n
    ensures k <= -1 ==> k * n <= -n
  {
    assert k * n == (k - 1) * n + n == (k + 1) * n - n;
    if k >= 1 { assert (k - 1) * n >= 0; }
    if k <= -1 { assert (k + 1) * n <= 0; }
  }

  lemma OneLess(n: int, d: nat)
    requires d > 0
    ensures (n - d) / d == n / d - 1
  {
    var q, p := n / d, (n - d) / d;
    assert n == q * d + n % d && n - d == p * d + (n - d) % d;
    assert (q - p - 1) * d == q * d - p * d - d;
    MultipleGrows(q - p - 1, d);
  }

  /** That is floor(N / B) + 1. */
  lemma {:induction false} BatchesForIs(n: nat, batchSize: nat)
    requires batchSize > 0
    ensures BatchesFor(n, batchSize) == n / batchSize + 1
    decreases n
  {
    if n < batchSize {
    } else {
      BatchesForIs(n - batchSize, batchSize);
      OneLess(n, batchSize);
    }
  }

  lemma {:induction false} BatchCount(total: nat, full: nat, batchSize: nat)
    requires FullBatches(full, batchSize) <= total < FullBatches(full, batchSize) + batchSize
    ensures full + 1 == BatchesFor(total, batchSize)
  {
    if full == 0 {
    } else {
      BatchCount(total - batchSize, full - 1, batchSize);
    }
  }

  // ---------- Which batch sizes ever finish ----------

  /** One round of the loop that does not end it: a batch that is not short. */
  ghost predicate Continues(before: Table, after: Table, f: Filter, batchSize: nat) {
    exists batch ::
      && IsOldestBatch(before, Candidates(before, f), batchSize, batch)
      && |batch| == batchSize && after == TrimRows(before, batch)
  }

  /** The loop can go through n rounds from `start` without ending. */
  ghost predicate StillRunning(start: Table, f: Filter, batchSize: nat, n: nat) {
    exists run: seq<Table> ::
      && |run| == n + 1 && run[0] == start
      && forall i :: 0 <= i < n ==> Continues(run[i], run[i + 1], f, batchSize)
  }

  lemma {:induction false} RoundsUseCandidates(run: seq<Table>, f: Filter, batchSize: nat)
    requires |run| > 0 && batchSize > 0
    requires forall i :: 0 <= i < |run| - 1 ==> Continues(run[i], run[i + 1], f, batchSize)
    ensures |run| - 1 <= |Candidates(run[0], f)|
  {
    if |run| == 1 {
    } else {
      RoundsUseCandidates(run[1..], f, batchSize);
      assert Continues(run[0], run[1], f, batchSize);
      var batch :| IsOldestBatch(run[0], Candidates(run[0], f), batchSize, batch)
                   && |batch| == batchSize && run[1] == TrimRows(run[0], batch);
      TrimmingRemovesCandidates(run[0], f, batch);
      assert |Candidates(run[0], f) - batch| == |Candidates(run[0], f)| - |batch|;
    }
  }

  lemma EmptyBatchContinues(table: Table, f: Filter)
    ensures Continues(table, table, f, 0)
  {
    assert IsOldestBatch(table, Candidates(table, f), 0, {});
    assert TrimRows(table, {}) == table;
  }

  /** The loop can run without end exactly when the batch size is zero, whatever the table: an empty batch is
      never short then. */
  lemma LoopsForeverExactlyAtZero(start: Table, f: Filter, batchSize: nat)
    ensures (forall n: nat :: StillRunning(start, f, batchSize, n)) <==> batchSize == 0
  {
    if batchSize == 0 {
      forall n: nat ensures StillRunning(start, f, batchSize, n) {
        var run := seq(n + 1, _ => start);
        EmptyBatchContinues(start, f);
        assert |run| == n + 1 && run[0] == start;
      }
    } else {
      var n := |Candidates(start, f)| + 1;
      if StillRunning(start, f, batchSize, n) {
        var run: seq<Table> :| && |run| == n + 1 && run[0] == start
                               && forall i :: 0 <= i < n ==> Continues(run[i], run[i + 1], f, batchSize);
        RoundsUseCandidates(run, f, batchSize);
      }
    }
  }

  // ---------- The script ----------

  /** How a run that has trimmed `done` stands after some full batches. */
  ghost predicate Stands(
    start: Table, f: Filter, done: set<string>, tasks: Table, total: int, batches: nat, batchSize: int)
  {
    && done <= Candidates(start, f) && tasks == TrimRows(start, done)
    && Candidates(tasks, f) == Candidates(start, f) - done
    && total == |done| && (batchSize > 0 ==> total == FullBatches(batches, batchSize))
  }

  /** A negative LIMIT is refused by the database. */
  datatype Outcome = DatabaseError | Finished(updated: nat, batches: nat)

  lemma StandsAtStart(start: Table, f: Filter, batchSize: int)
    ensures Stands(start, f, {}, start, 0, 0, batchSize)
  {
    assert start == TrimRows(start, {});
  }

  /** A finished run has trimmed every candidate and nothing else: exactly the due rows change, none is left, and
      there were floor(N / B) + 1 batches for N candidates. */
  ghost predicate TrimsEverything(before: Table, after: Table, f: Filter, batchSize: nat, outcome: Outcome)
    requires batchSize > 0
  {
    && after == TrimRows(before, Candidates(before, f)) && Candidates(after, f) == {}
    && ChangesExactlyDue(before, after, f)
    && outcome == Finished(|Candidates(before, f)|, BatchesFor(|Candidates(before, f)|, batchSize))
  }

  /** A full batch leads on, and uses up candidates. */
  lemma FullRound(
    start: Table, f: Filter, done: set<string>, tasks: Table, total: int, batches: nat, batchSize: nat,
    batch: set<string>, after: Table)
    requires Stands(start, f, done, tasks, total, batches, batchSize)
    requires IsOldestBatch(tasks, Candidates(tasks, f), batchSize, batch) && after == TrimRows(tasks, batch)
    requires |batch| == batchSize > 0
    ensures Stands(start, f, done + batch, after, total + |batch|, batches + 1, batchSize)
    ensures |done| < |done + batch| <= |Candidates(start, f)|
  {
    BatchExtends(start, f, done, batch, batchSize);
    SubsetSize(done + batch, Candidates(start, f));
  }

  /** A short one has trimmed every candidate. */
  lemma LastRound(
    start: Table, f: Filter, done: set<string>, tasks: Table, total: int, batches: nat, batchSize: nat,
    batch: set<string>, after: Table)
    requires Stands(start, f, done, tasks, total, batches, batchSize)
    requires IsOldestBatch(tasks, Candidates(tasks, f), batchSize, batch) && after == TrimRows(tasks, batch)
    requires |batch| < batchSize
    ensures TrimsEverything(start, after, f, batchSize, Finished(total + |batch|, batches + 1))
  {
    BatchExtends(start, f, done, batch, batchSize);
    assert total + |batch| == |Candidates(start, f)|;
    BatchCount(|Candidates(start, f)|, batches, batchSize);
    TrimChangesDueRows(start, f);
  }

  class TaskStore {
    var tasks: Table

    method UpdateBatch(f: Filter, batchSize: int) returns (updated: Option<set<string>>)
      modifies this
      ensures updated.None? <==> batchSize < 0
      ensures updated.None? ==> tasks == old(tasks)
      ensures updated.Some? ==>
                && IsOldestBatch(old(tasks), Candidates(old(tasks), f), batchSize, updated.value)
                && tasks == TrimRows(old(tasks), updated.value)
                && TakesOldestDue(old(tasks), tasks, updated.value, f)
    {
      if batchSize < 0 {
        return None;
      }
      var batch := SelectOldest(tasks, Candidates(tasks, f), batchSize);
      OldestBatchIsTaken(tasks, f, batchSize, batch);
      tasks := map id | id in tasks :: if id in batch then Trimmed(tasks[id]) else tasks[id];
      return Some(batch);
    }

    /** Whatever the positive batch size, the run trims everything that is due and nothing else; a negative size
        changes nothing. With size zero the run does not end. */
    method Trim(f: Filter, batchSize: int) returns (outcome: Outcome)
      requires batchSize != 0
      modifies this
      ensures batchSize < 0 ==> outcome == DatabaseError && tasks == old(tasks)
      ensures batchSize > 0 ==> TrimsEverything(old(tasks), tasks, f, batchSize, outcome)
    {
      ghost var start := tasks;
      ghost var done: set<string> := {};
      var totalUpdated, batches: nat := 0, 0;
      StandsAtStart(start, f, batchSize);
      while true
        invariant Stands(start, f, done, tasks, totalUpdated, batches, batchSize)
        invariant batchSize < 0 ==> done == {}
        decreases |Candidates(start, f)| - |done|
      {
        ghost var before := tasks;
        var updated := UpdateBatch(f, batchSize);
        if updated.None? {
          return DatabaseError;
        }
        ghost var rows, rounds := totalUpdated, batches;
        totalUpdated := totalUpdated + |updated.value|;
        batches := batches + 1;
        if |updated.value| < batchSize {
          LastRound(start, f, done, before, rows, rounds, batchSize, updated.value, tasks);
          return Finished(totalUpdated, batches);
        }
        FullRound(start, f, done, before, rows, rounds, batchSize, updated.value, tasks);
        done := done + updated.value;
      }
    }
  }
}
