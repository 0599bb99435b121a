/** The batched prune: delete old finished tasks and their summary projections, oldest first,
    until nothing matches. */
module TaskPrune {
  import opened Counting
  import opened TaskRows
  import opened Wrappers

  const DEFAULT_PACK_PATTERNS: seq<string> := ["ig_%", "ig.%", "ig/%"]

  datatype Filter = Filter(
    packPatterns: seq<string>, packIds: seq<string>, statuses: seq<string>,
    olderThanDays: int, workspaceId: Option<string>, now: int)

  /** SQL LIKE: '%' any text, '_' any one character, '\' makes the next character literal. */
  predicate Like(pattern: string, s: string)
    decreases |pattern|, |s|
  {
    if pattern == [] then s == []
    else if pattern[0] == '%' then Like(pattern[1..], s) || (s != [] && Like(pattern, s[1..]))
    else if s == [] then false
    else if pattern[0] == '_' then Like(pattern[1..], s[1..])
    else if pattern[0] == '\\' then |pattern| > 1 && pattern[1] == s[0] && Like(pattern[2..], s[1..])
    else pattern[0] == s[0] && Like(pattern[1..], s[1..])
  }

  predicate LikeAny(value: Option<string>, patterns: seq<string>) {
    value.Some? && exists p :: p in patterns && Like(p, value.value)
  }

  lemma {:induction false} PercentMatchesAll(s: string)
    ensures Like("%", s)
  {
    if s == [] { assert Like("%"[1..], s); } else { PercentMatchesAll(s[1..]); }
  }

  lemma LiteralThenRest(c: char, rest: string, s: string)
    requires c != '%' && c != '_' && c != '\\'
    ensures Like([c] + rest, s) <==> s != [] && s[0] == c && Like(rest, s[1..])
  {
    assert ([c] + rest)[1..] == rest;
  }

  lemma ThirdThenAnything(c: char, s: string)
    requires c != '%' && c != '\\'
    ensures Like(['i', 'g', c, '%'], s) <==> |s| >= 3 && s[0] == 'i' && s[1] == 'g' && (c == '_' || s[2] == c)
  {
    var tail := [c, '%'];
    assert ['i', 'g', c, '%'] == ['i'] + (['g'] + tail);
    LiteralThenRest('i', ['g'] + tail, s);
    if s != [] { LiteralThenRest('g', tail, s[1..]); }
    if |s| >= 3 {
      assert tail[1..] == "%";
      PercentMatchesAll(s[2..][1..]);
      assert Like(tail, s[2..]) <==> c == '_' || s[2..][0] == c;
      assert s[1..][1..] == s[2..];
    }
  }

  /** The underscore of the first default pattern is a wildcard: together the defaults match every pack id
      that starts with "ig" and has a third character, not only those with a separator there. */
  lemma DefaultPatternsMatchAnyThird(s: string)
    ensures LikeAny(Some(s), DEFAULT_PACK_PATTERNS) <==> |s| >= 3 && s[0] == 'i' && s[1] == 'g'
  {
    ThirdThenAnything('_', s);
    ThirdThenAnything('.', s);
    ThirdThenAnything('/', s);
    assert "ig_%" in DEFAULT_PACK_PATTERNS;
  }

  predicate IsCandidate(task: Task, f: Filter) {
    && (LikeAny(task.packId, OrDefault(f.packPatterns, DEFAULT_PACK_PATTERNS)) || OneOf(task.packId, f.packIds))
    && OneOf(task.status, OrDefault(f.statuses, FINISHED))
    && OldEnough(task, f.olderThanDays, f.now)
    && InWorkspace(task, f.workspaceId)
  }

  function Candidates(table: Table, f: Filter): set<string> {
    set id | id in table && IsCandidate(table[id], f)
  }

  // ---------- What is deleted, in terms of a row's own columns ----------

  /** The pack id matches a given pattern, or a default one when none is given, or is one of the given ids. */
  ghost predicate IsAdmittedPack(task: Task, patterns: seq<string>, ids: seq<string>) {
    task.packId.Some?
    && var pack := task.packId.value;
       || pack in ids
       || (patterns == [] && |pack| >= 3 && pack[0] == 'i' && pack[1] == 'g')
       || exists p :: p in patterns && Like(p, pack)
  }

  ghost predicate IsDue(task: Task, f: Filter) {
    && IsAdmittedPack(task, f.packPatterns, f.packIds) && HasStatus(task, f.statuses)
    && IsOlder(task, f.olderThanDays, f.now) && IsInWorkspace(task, f.workspaceId)
  }

  lemma CandidateIsDue(task: Task, f: Filter)
    ensures IsCandidate(task, f) <==> IsDue(task, f)
  {
    ConditionsAre(task, f.olderThanDays, f.now, f.statuses, f.workspaceId);
    if task.packId.Some? { DefaultPatternsMatchAnyThird(task.packId.value); }
  }

  lemma CandidatesAreDue(table: Table, f: Filter)
    ensures Candidates(table, f) == set id | id in table && IsDue(table[id], f)
  {
    forall id | id in table ensures id in Candidates(table, f) <==> IsDue(table[id], f) {
      CandidateIsDue(table[id], f);
    }
  }

  /** The rows taken are due, and none is newer than a due row that stays. */
  ghost predicate TakesOldestDue(before: Table, after: Table, batch: set<string>, f: Filter) {
    && (forall id :: id in batch ==> id in before && IsDue(before[id], f))
    && (forall x, y :: x in batch && y in after && IsDue(after[y], f) && after[y].createdAt.Some? ==>
          x in before && before[x].createdAt.Some? && before[x].createdAt.value <= after[y].createdAt.value)
  }

  /** Exactly the due rows are gone. */
  ghost predicate TakesExactlyDue(before: Table, after: Table, f: Filter) {
    forall id :: id in after <==> id in before && !IsDue(before[id], f)
  }

  lemma OldestBatchIsTaken(table: Table, f: Filter, limit: nat, batch: set<string>)
    requires IsOldestBatch(table, Candidates(table, f), limit, batch)
    ensures TakesOldestDue(table, table - batch, batch, f)
  {
    CandidatesAreDue(table, f);
    forall x, y | x in batch && y in table - batch && IsDue(table[y], f) && table[y].createdAt.Some?
      ensures table[x].createdAt.Some? && table[x].createdAt.value <= table[y].createdAt.value
    {
      assert y in Candidates(table, f) - batch;
    }
  }

  lemma AllCandidatesAreTaken(table: Table, f: Filter)
    ensures TakesExactlyDue(table, table - Candidates(table, f), f)
  {
    CandidatesAreDue(table, f);
  }

  /** Raising the age limit never adds a row. */
  lemma HigherLimitDeletesLess(table: Table, f: Filter, days: int)
    requires f.olderThanDays <= days
    ensures Candidates(table, f.(olderThanDays := days)) <= Candidates(table, f)
  {
    CandidatesAreDue(table, f);
    CandidatesAreDue(table, f.(olderThanDays := days));
  }

  // The laws of LIKE, one for each kind of pattern character.

  /** A percent sign stands for any text: some rest of the text matches the rest of the pattern. */
  lemma {:induction false} PercentSkipsAny(rest: string, s: string)
    ensures Like("%" + rest, s) <==> exists k :: 0 <= k <= |s| && Like(rest, s[k..])
    decreases |s|
  {
    assert ("%" + rest)[1..] == rest && s[0..] == s;
    if s == [] {
    } else {
      PercentSkipsAny(rest, s[1..]);
      forall k | 0 <= k <= |s| - 1 ensures s[1..][k..] == s[k + 1..] { }
      if k :| 0 <= k <= |s| && Like(rest, s[k..]) {
        if k > 0 { assert s[1..][k - 1..] == s[k..]; }
      }
    }
  }

  /** An underscore stands for one character, a backslash makes the next one literal, any other stands for itself. */
  lemma OneCharacterPatterns(c: char, rest: string, s: string)
    ensures Like("_" + rest, s) <==> s != [] && Like(rest, s[1..])
    ensures Like(['\\', c] + rest, s) <==> s != [] && s[0] == c && Like(rest, s[1..])
    ensures c != '%' && c != '_' && c != '\\' ==> (Like([c] + rest, s) <==> s != [] && s[0] == c && Like(rest, s[1..]))
    ensures Like("", s) <==> s == ""
  {
    assert ("_" + rest)[1..] == rest && (['\\', c] + rest)[2..] == rest && ([c] + rest)[1..] == rest;
  }

  // ---------- Totals ----------

  function ContextBytes(task: Task): nat { if task.contextBytes.Some? then task.contextBytes.value else 0 }

  function ResultBytes(task: Task): nat { if task.resultBytes.Some? then task.resultBytes.value else 0 }

  /** SUM over a set of rows. */
  ghost function Sum(table: Table, ids: set<string>, bytes: Task -> nat): nat
    requires ids <= table.Keys
  {
    if ids == {} then 0
    else
      var id :| id in ids;
      bytes(table[id]) + Sum(table, ids - {id}, bytes)
  }

  /** The bytes of one row, a missing column counting nothing. */
  lemma BytesOfOne(table: Table, id: string)
    requires id in table
    ensures Sum(table, {id}, ContextBytes) == if table[id].contextBytes.Some? then table[id].contextBytes.value else 0
    ensures Sum(table, {id}, ResultBytes) == if table[id].resultBytes.Some? then table[id].resultBytes.value else 0
    ensures Summary(table, {id}) == Totals(1, Sum(table, {id}, ContextBytes), Sum(table, {id}, ResultBytes))
  {
    assert {id} - {id} == {};
  }

  lemma {:induction false} SumTakesOut(table: Table, ids: set<string>, bytes: Task -> nat, id: string)
    requires ids <= table.Keys && id in ids
    ensures Sum(table, ids, bytes) == bytes(table[id]) + Sum(table, ids - {id}, bytes)
    decreases ids
  {
    var first :| first in ids && Sum(table, ids, bytes) == bytes(table[first]) + Sum(table, ids - {first}, bytes);
    if first != id {
      SumTakesOut(table, ids - {first}, bytes, id);
      SumTakesOut(table, ids - {id}, bytes, first);
      assert ids - {first} - {id} == ids - {id} - {first};
    }
  }

  lemma {:induction false} SumAdds(table: Table, a: set<string>, b: set<string>, bytes: Task -> nat)
    requires a !! b && a + b <= table.Keys
    ensures Sum(table, a + b, bytes) == Sum(table, a, bytes) + Sum(table, b, bytes)
    decreases a
  {
    if a == {} {
      assert a + b == b;
    } else {
      var id :| id in a;
      SumTakesOut(table, a + b, bytes, id);
      SumTakesOut(table, a, bytes, id);
      assert a + b - {id} == (a - {id}) + b;
      SumAdds(table, a - {id}, b, bytes);
    }
  }

  lemma {:induction false} SumOfSubtable(table: Table, smaller: Table, ids: set<string>, bytes: Task -> nat)
    requires ids <= smaller.Keys <= table.Keys && forall id :: id in smaller ==> smaller[id] == table[id]
    ensures Sum(smaller, ids, bytes) == Sum(table, ids, bytes)
    decreases ids
  {
    if ids == {} {
    } else {
      var id :| id in ids;
      SumTakesOut(table, ids, bytes, id);
      SumTakesOut(smaller, ids, bytes, id);
      SumOfSubtable(table, smaller, ids - {id}, bytes);
    }
  }

  datatype Totals = Totals(rows: nat, contextBytes: nat, resultBytes: nat)

  /** The dry-run summary of a set of rows. */
  ghost function Summary(table: Table, ids: set<string>): Totals
    requires ids <= table.Keys
  {
    Totals(|ids|, Sum(table, ids, ContextBytes), Sum(table, ids, ResultBytes))
  }

  // ---------- The store ----------

  ghost predicate NoneNewer(table: Table, deleted: set<string>, left: set<string>)
    requires deleted <= table.Keys && left <= table.Keys
  {
    forall x, y :: x in deleted && y in left ==> NotNewer(table[x].createdAt, table[y].createdAt)
  }

  /** What one more oldest batch does to a run that has deleted `gone` of the candidates `all`. */
  lemma BatchExtends(start: Table, all: set<string>, gone: set<string>, batch: set<string>, limit: nat)
    requires gone <= all <= start.Keys
    requires IsOldestBatch(start - gone, all - gone, limit, batch)
    ensures batch !! gone && gone + batch <= all && |gone + batch| == |gone| + |batch|
    ensures batch == {} && limit > 0 ==> gone == all
  {
    if batch == {} && limit > 0 {
      assert |all - gone| == 0;
      assert all - gone == {};
    }
  }

  lemma DeletingInTwo(start: Table, gone: set<string>, batch: set<string>)
    ensures start - gone - batch == start - (gone + batch)
  {
  }

  lemma StillNoneNewer(start: Table, all: set<string>, gone: set<string>, batch: set<string>, limit: nat)
    requires gone <= all <= start.Keys && NoneNewer(start, gone, all - gone)
    requires IsOldestBatch(start - gone, all - gone, limit, batch)
    ensures gone + batch <= all && NoneNewer(start, gone + batch, all - (gone + batch))
  {
    forall x, y | x in gone + batch && y in all - (gone + batch)
      ensures NotNewer(start[x].createdAt, start[y].createdAt)
    {
      if x !in gone { assert y in all - gone - batch; }
    }
  }

  lemma DeletingRemovesCandidates(start: Table, f: Filter, gone: set<string>)
    ensures Candidates(start - gone, f) == Candidates(start, f) - gone
  {
  }

  lemma SumExtends(start: Table, gone: set<string>, batch: set<string>, bytes: Task -> nat)
    requires gone <= start.Keys && batch <= (start - gone).Keys
    ensures Sum(start, gone + batch, bytes) == Sum(start, gone, bytes) + Sum(start - gone, batch, bytes)
  {
    SumAdds(start, gone, batch, bytes);
    SumOfSubtable(start, start - gone, batch, bytes);
  }

  /** How a run that has deleted `gone` of the candidates `all` stands. */
  ghost predicate Stands(
    start: Table, shown: set<string>, all: set<string>, gone: set<string>,
    tasks: Table, projections: set<string>, totals: Totals)
  {
    && gone <= all <= start.Keys
    && tasks == start - gone && projections == shown - gone
    && totals == Summary(start, gone)
    && NoneNewer(start, gone, all - gone)
  }

  lemma TotalsExtend(start: Table, gone: set<string>, batch: set<string>)
    requires gone <= start.Keys && batch <= (start - gone).Keys && |gone + batch| == |gone| + |batch|
    ensures Summary(start, gone + batch)
         == Totals(Summary(start, gone).rows + |batch|,
                   Summary(start, gone).contextBytes + Sum(start - gone, batch, ContextBytes),
                   Summary(start, gone).resultBytes + Sum(start - gone, batch, ResultBytes))
  {
    SumExtends(start, gone, batch, ContextBytes);
    SumExtends(start, gone, batch, ResultBytes);
  }

  lemma TakenInTwo(s: set<string>, a: set<string>, b: set<string>)
    ensures s - a - b == s - (a + b)
  {
  }

  lemma StandsAfterBatch(
    start: Table, shown: set<string>, all: set<string>, gone: set<string>,
    tasks: Table, projections: set<string>, totals: Totals, batch: set<string>, limit: nat)
    requires Stands(start, shown, all, gone, tasks, projections, totals)
    requires IsOldestBatch(tasks, all - gone, limit, batch)
    ensures Stands(start, shown, all, gone + batch, tasks - batch, projections - batch,
                   Totals(totals.rows + |batch|, totals.contextBytes + Sum(tasks, batch, ContextBytes),
                          totals.resultBytes + Sum(tasks, batch, ResultBytes)))
  {
    BatchExtends(start, all, gone, batch, limit);
    StillNoneNewer(start, all, gone, batch, limit);
    DeletingInTwo(start, gone, batch);
    TakenInTwo(shown, gone, batch);
    TotalsExtend(start, gone, batch);
  }

  method SumRows(table: Table, ids: set<string>, bytes: Task -> nat) returns (total: nat)
    requires ids <= table.Keys
    ensures total == Sum(table, ids, bytes)
  {
    total := 0;
    var rest := ids;
    while rest != {}
      invariant rest <= ids && total + Sum(table, rest, bytes) == Sum(table, ids, bytes)
    {
      var id :| id in rest;
      SumTakesOut(table, rest, bytes, id);
      total := total + bytes(table[id]);
      rest := rest - {id};
    }
  }

  class TaskStore {
    var tasks: Table
    var projections: set<string>   // ids of tasks that have a summary projection

    /** The deleted ids and the bytes their rows report; None if the database refuses the limit. */
    method DeleteBatch(f: Filter, batchSize: int) returns (deleted: Option<(set<string>, nat, nat)>)
      modifies this
      ensures deleted.None? <==> batchSize < 0
      ensures deleted.None? ==> tasks == old(tasks) && projections == old(projections)
      ensures deleted.Some? ==>
                var (batch, contextBytes, resultBytes) := deleted.value;
                && IsOldestBatch(old(tasks), Candidates(old(tasks), f), batchSize, batch)
                && tasks == old(tasks) - batch && projections == old(projections) - batch
                && contextBytes == Sum(old(tasks), batch, ContextBytes)
                && resultBytes == Sum(old(tasks), batch, ResultBytes)
                && TakesOldestDue(old(tasks), tasks, batch, f)
    {
      if batchSize < 0 {
        return None;
      }
      var batch := SelectOldest(tasks, Candidates(tasks, f), batchSize);
      var contextBytes := SumRows(tasks, batch, ContextBytes);
      var resultBytes := SumRows(tasks, batch, ResultBytes);
      OldestBatchIsTaken(tasks, f, batchSize, batch);
      projections := projections - batch;
      tasks := tasks - batch;
      return Some((batch, contextBytes, resultBytes));
    }

    /** Whatever the batch size, exactly the matching tasks and their projections go, and the reported totals are
        those of the dry run. After each batch no deleted row is newer than a remaining candidate, and no
        projection refers to a deleted task. Size zero deletes nothing; a negative one is a database error. */
    method Prune(f: Filter, batchSize: int) returns (outcome: Option<Totals>)
      modifies this
      ensures outcome.None? <==> batchSize < 0
      ensures batchSize > 0 ==>
                && tasks == old(tasks) - Candidates(old(tasks), f)
                && projections == old(projections) - Candidates(old(tasks), f)
                && outcome == Some(Summary(old(tasks), Candidates(old(tasks), f)))
                && TakesExactlyDue(old(tasks), tasks, f)
      ensures batchSize <= 0 ==> tasks == old(tasks) && projections == old(projections)
      ensures batchSize == 0 ==> outcome == Some(Totals(0, 0, 0))
    {
      AllCandidatesAreTaken(tasks, f);
      ghost var start, shown, all := tasks, projections, Candidates(tasks, f);
      ghost var gone: set<string> := {};
      var deleted := Totals(0, 0, 0);
      while true
        invariant Stands(start, shown, all, gone, tasks, projections, deleted)
        invariant batchSize <= 0 ==> gone == {}
        invariant |gone| <= |all|
        decreases |all| - |gone|
      {
        DeletingRemovesCandidates(start, f, gone);
        ghost var before, shownBefore := tasks, projections;
        var answer := DeleteBatch(f, batchSize);
        if answer.None? {
          return None;
        }
        var (batch, contextBytes, resultBytes) := answer.value;
        StandsAfterBatch(start, shown, all, gone, before, shownBefore, deleted, batch, batchSize);
        BatchExtends(start, all, gone, batch, batchSize);
        SubsetSize(gone + batch, all);
        if batch == {} {
          return Some(deleted);
        }
        deleted := Totals(
          deleted.rows + |batch|, deleted.contextBytes + contextBytes, deleted.resultBytes + resultBytes);
        gone := gone + batch;
      }
    }
  }
}
