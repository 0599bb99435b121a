/** The scheduler schema patch for tasks: UPDATE statements applied in order to every task row, in one
    transaction with one NOW(). NULL is None; times are integers on the server's clock. */
module SchedulerPatch {
  import opened Wrappers

  // ---------- Rows ----------

  /** A JSON value under a key; `text` is what `->>` shows of a value that is no string. */
  datatype Json = JNull | JString(text: string) | JOther(text: string)

  type Context = map<string, Json>

  datatype Payload = DependencyHold(hold: Json) | OtherPayload(text: string)

  datatype Row = Row(
    id: string, status: Option<string>, taskType: Option<string>, packId: Option<string>,
    createdAt: Option<int>, context: Option<Context>,
    nextEligibleAt: Option<int>, blockedReason: Option<string>, blockedPayload: Option<Payload>,
    queueShard: Option<string>, frontierState: Option<string>, frontierEnqueuedAt: Option<int>)

  /** `CAST(text AS timestamptz)`; None is a cast error. */
  type Cast = string -> Option<int>

  /** `context->key`: a JSON null is a value here, so it IS NOT NULL. */
  function Get(row: Row, key: string): Option<Json> {
    if row.context.Some? && key in row.context.value then Some(row.context.value[key]) else None
  }

  /** `context->>key`: a JSON null becomes NULL. */
  function GetText(row: Row, key: string): Option<string> {
    match Get(row, key)
    case None => None
    case Some(JNull) => None
    case Some(v) => Some(v.text)
  }

  function Coalesce<T>(a: Option<T>, b: Option<T>): Option<T> { if a.Some? then a else b }

  // ---------- The CASE expressions ----------

  predicate IsDigit(c: char) { '0' <= c <= '9' }

  /** ~ '^[0-9]{4}-[0-9]{2}-[0-9]{2}T' */
  predicate LooksLikeTime(s: string) {
    |s| >= 11 && IsDigit(s[0]) && IsDigit(s[1]) && IsDigit(s[2]) && IsDigit(s[3]) && s[4] == '-'
    && IsDigit(s[5]) && IsDigit(s[6]) && s[7] == '-' && IsDigit(s[8]) && IsDigit(s[9]) && s[10] == 'T'
  }

  /** The text that would be cast, if any. */
  function ResumeText(row: Row): Option<string> {
    var text := GetText(row, "resume_after");
    if text.Some? && LooksLikeTime(text.value) then text else None
  }

  predicate CastFails(row: Row, cast: Cast) {
    ResumeText(row).Some? && cast(ResumeText(row).value).None?
  }

  function ResumeAt(row: Row, cast: Cast): Option<int> {
    if ResumeText(row).Some? then cast(ResumeText(row).value) else None
  }

  predicate Held(row: Row) {
    GetText(row, "runner_skip_reason").Some? || Get(row, "dependency_hold").Some?
  }

  /** `task_type NOT IN (...)` is not true of NULL. */
  predicate NotRunnable(row: Row) {
    row.taskType.Some? && row.taskType.value != "playbook_execution" && row.taskType.value != "tool_execution"
  }

  function FrontierOf(row: Row, now: int, cast: Cast): string {
    if row.status == Some("running") then "running"
    else if row.status.Some? && row.status.value != "pending" then "done"
    else if NotRunnable(row) then "cold"
    else if Held(row) then "cold"
    else if ResumeAt(row, cast).Some? && ResumeAt(row, cast).value > now then "cold"
    else "ready"
  }

  function ReasonOf(row: Row): Option<string> {
    if GetText(row, "runner_skip_reason").Some? then GetText(row, "runner_skip_reason")
    else if Get(row, "dependency_hold").Some? then Some("dependency_hold")
    else row.blockedReason
  }

  function PayloadOf(row: Row): Option<Payload> {
    match Get(row, "dependency_hold")
    case Some(hold) => Some(DependencyHold(hold))
    case None => row.blockedPayload
  }

  function ShardOf(row: Row): Option<string> {
    if row.packId == Some("ig_analyze_pinned_reference") then Some("ig_analysis")
    else if row.packId == Some("ig_batch_pin_references") || row.packId == Some("ig_analyze_following")
      then Some("ig_browser")
    else Coalesce(row.queueShard, Some("default"))
  }

  // ---------- The statements ----------

  datatype Statement =
    | AddColumn | Derive | FillShard | FillFrontier | FillEligible | FillEnqueued | CreateIndex

  const UPDATES: seq<Statement> := [Derive, FillShard, FillFrontier, FillEligible, FillEnqueued]

  const NEW_COLUMNS: seq<Statement> := [AddColumn, AddColumn, AddColumn, AddColumn, AddColumn, AddColumn, AddColumn]

  const NEW_INDEXES: seq<Statement> :=
    [CreateIndex, CreateIndex, CreateIndex, CreateIndex, CreateIndex,
     CreateIndex, CreateIndex, CreateIndex, CreateIndex, CreateIndex]

  const STATEMENTS: seq<Statement> := NEW_COLUMNS + UPDATES + NEW_INDEXES

  /** A statement's effect on one row; every SET reads the old row. None aborts the transaction. */
  function Updated(st: Statement, row: Row, now: int, cast: Cast): Option<Row> {
    match st
    case Derive =>
      if CastFails(row, cast) then None
      else Some(row.(
        nextEligibleAt := Coalesce(ResumeAt(row, cast), Coalesce(row.createdAt, Some(now))),
        blockedReason := ReasonOf(row), blockedPayload := PayloadOf(row), queueShard := ShardOf(row),
        frontierState := Some(FrontierOf(row, now, cast))))
    case FillShard => Some(if row.queueShard.None? then row.(queueShard := Some("default")) else row)
    case FillFrontier => Some(if row.frontierState.None? then row.(frontierState := Some("cold")) else row)
    case FillEligible =>
      Some(if row.nextEligibleAt.None? then row.(nextEligibleAt := Coalesce(row.createdAt, Some(now))) else row)
    case FillEnqueued =>
      Some(row.(frontierEnqueuedAt :=
        if row.frontierState == Some("ready") then Coalesce(row.frontierEnqueuedAt, row.createdAt) else None))
    case _ => Some(row)
  }

  /** The statements one after another on one row. */
  function Applied(sts: seq<Statement>, row: Row, now: int, cast: Cast): Option<Row> {
    if sts == [] then Some(row)
    else
      match Applied(sts[..|sts| - 1], row, now, cast)
      case None => None
      case Some(r) => Updated(sts[|sts| - 1], r, now, cast)
  }

  function Patched(row: Row, now: int, cast: Cast): Option<Row> { Applied(STATEMENTS, row, now, cast) }

  /** The rows each statement leaves behind, as far as no cast fails. */
  ghost predicate AllApplied(sts: seq<Statement>, before: seq<Row>, now: int, cast: Cast, after: seq<Row>) {
    |after| == |before| && forall i :: 0 <= i < |before| ==> Applied(sts, before[i], now, cast) == Some(after[i])
  }

  lemma {:induction false} AbortIsFinal(sts: seq<Statement>, k: nat, row: Row, now: int, cast: Cast)
    requires k <= |sts| && Applied(sts[..k], row, now, cast).None?
    ensures Applied(sts, row, now, cast).None?
  {
    if k == |sts| {
      assert sts[..k] == sts;
    } else {
      var front := sts[..|sts| - 1];
      assert front[..k] == sts[..k];
      AbortIsFinal(front, k, row, now, cast);
    }
  }

  class TaskTable {
    var rows: seq<Row>

    /** Statement by statement over the whole table, rolled back if any cast fails: each row ends as if
        it alone had gone through all statements. */
    method ApplyPatch(now: int, cast: Cast) returns (ok: bool)
      modifies this
      ensures ok <==> forall i :: 0 <= i < |old(rows)| ==> Patched(old(rows)[i], now, cast).Some?
      ensures ok ==> AllApplied(STATEMENTS, old(rows), now, cast, rows)
      ensures !ok ==> rows == old(rows)
    {
      var snapshot := rows;
      var k := 0;
      while k < |STATEMENTS|
        invariant 0 <= k <= |STATEMENTS| && AllApplied(STATEMENTS[..k], snapshot, now, cast, rows)
      {
        var st := STATEMENTS[k];
        ghost var stage := rows;
        assert STATEMENTS[..k + 1][..k] == STATEMENTS[..k];
        var i := 0;
        while i < |rows|
          invariant 0 <= i <= |rows| == |stage|
          invariant forall j :: 0 <= j < i ==> Updated(st, stage[j], now, cast) == Some(rows[j])
          invariant forall j :: i <= j < |rows| ==> rows[j] == stage[j]
        {
          var updated := Updated(st, rows[i], now, cast);
          if updated.None? {
            AbortIsFinal(STATEMENTS, k + 1, snapshot[i], now, cast);
            rows := snapshot;
            return false;
          }
          rows := rows[i := updated.value];
          i := i + 1;
        }
        k := k + 1;
      }
      assert STATEMENTS[..k] == STATEMENTS;
      return true;
    }
  }

  // ---------- What the patch makes of a row ----------

  lemma {:induction false} AppliedInTwo(a: seq<Statement>, b: seq<Statement>, row: Row, now: int, cast: Cast)
    ensures Applied(a + b, row, now, cast)
         == match Applied(a, row, now, cast) case None => None case Some(r) => Applied(b, r, now, cast)
  {
    if b == [] {
      assert a + b == a;
    } else {
      assert (a + b)[..|a + b| - 1] == a + b[..|b| - 1];
      AppliedInTwo(a, b[..|b| - 1], row, now, cast);
    }
  }

  lemma {:induction false} SchemaChangesKeepRows(sts: seq<Statement>, row: Row, now: int, cast: Cast)
    requires forall i :: 0 <= i < |sts| ==> sts[i].AddColumn? || sts[i].CreateIndex?
    ensures Applied(sts, row, now, cast) == Some(row)
  {
    if sts == [] {
    } else {
      SchemaChangesKeepRows(sts[..|sts| - 1], row, now, cast);
    }
  }

  lemma OnlyUpdatesMatter(row: Row, now: int, cast: Cast)
    ensures Patched(row, now, cast) == Applied(UPDATES, row, now, cast)
  {
    SchemaChangesKeepRows(NEW_COLUMNS, row, now, cast);
    AppliedInTwo(NEW_COLUMNS, UPDATES, row, now, cast);
    AppliedInTwo(NEW_COLUMNS + UPDATES, NEW_INDEXES, row, now, cast);
    if Applied(UPDATES, row, now, cast).Some? {
      SchemaChangesKeepRows(NEW_INDEXES, Applied(UPDATES, row, now, cast).value, now, cast);
    }
  }

  function DerivedRow(row: Row, now: int, cast: Cast): Row
    requires !CastFails(row, cast)
  {
    Updated(Derive, row, now, cast).value
  }

  /** The three null repairs never find a null: after the main update they change no row. */
  lemma RepairsAreVacuous(row: Row, now: int, cast: Cast)
    requires !CastFails(row, cast)
    ensures var d := DerivedRow(row, now, cast);
            Updated(FillShard, d, now, cast) == Updated(FillFrontier, d, now, cast)
            == Updated(FillEligible, d, now, cast) == Some(d)
  {
  }

  lemma PatchedIs(row: Row, now: int, cast: Cast)
    ensures Patched(row, now, cast)
         == if CastFails(row, cast) then None else Updated(FillEnqueued, DerivedRow(row, now, cast), now, cast)
  {
    OnlyUpdatesMatter(row, now, cast);
    var u := UPDATES;
    assert u[..4][..3] == u[..3] && u[..3][..2] == u[..2] && u[..2][..1] == u[..1] && u[..1][..0] == [];
    assert Applied(u[..0], row, now, cast) == Some(row);
    assert Applied(u[..1], row, now, cast) == Updated(Derive, row, now, cast);
    if !CastFails(row, cast) {
      RepairsAreVacuous(row, now, cast);
      var d := Some(DerivedRow(row, now, cast));
      assert Applied(u[..2], row, now, cast) == d;
      assert Applied(u[..3], row, now, cast) == d;
      assert Applied(u[..4], row, now, cast) == d;
    } else {
      AbortIsFinal(u, 1, row, now, cast);
    }
  }

  // ---------- The patched row in terms of its own fields ----------

  /** Four digits, two and two, joined by dashes, and then 'T'. */
  ghost predicate StartsLikeIsoTime(text: string) {
    |text| >= 11 && forall i :: 0 <= i < 11 ==>
      if i == 4 || i == 7 then text[i] == '-' else if i == 10 then text[i] == 'T' else '0' <= text[i] <= '9'
  }

  /** The context's value under a key is this text, or is shown as it. */
  ghost predicate ShowsText(row: Row, key: string, text: string) {
    row.context.Some? && key in row.context.value
    && (row.context.value[key] == JString(text) || row.context.value[key] == JOther(text))
  }

  ghost predicate Resumes(row: Row, text: string) { ShowsText(row, "resume_after", text) && StartsLikeIsoTime(text) }

  lemma IsoTimes(text: string)
    ensures LooksLikeTime(text) <==> StartsLikeIsoTime(text)
  {
    if LooksLikeTime(text) {
      forall i | 0 <= i < 11
        ensures if i == 4 || i == 7 then text[i] == '-' else if i == 10 then text[i] == 'T' else '0' <= text[i] <= '9'
      {
        assert i in {0, 1, 2, 3, 4, 5, 6, 7, 8, 9, 10};
      }
    }
  }

  lemma GetTextIs(row: Row, key: string, text: string)
    ensures GetText(row, key) == Some(text) <==> ShowsText(row, key, text)
  {
  }

  lemma ResumeTextIs(row: Row, text: string)
    ensures ResumeText(row) == Some(text) <==> Resumes(row, text)
  {
    GetTextIs(row, "resume_after", text);
    IsoTimes(text);
  }

  /** The patch fails on a row exactly when its ISO-like resume time cannot be cast. */
  lemma PatchFailsExactlyWhen(row: Row, now: int, cast: Cast)
    ensures Patched(row, now, cast).None? <==> exists text :: Resumes(row, text) && cast(text).None?
  {
    PatchedIs(row, now, cast);
    if ResumeText(row).Some? { ResumeTextIs(row, ResumeText(row).value); }
    forall text | Resumes(row, text) ensures ResumeText(row) == Some(text) { ResumeTextIs(row, text); }
  }

  /** Pending, or without a status. */
  predicate CountsAsPending(row: Row) { row.status.None? || row.status == Some("pending") }

  /** What keeps a pending row cold: a type that is not run, a skip reason, a dependency hold, a later resume time. */
  ghost predicate KeptCold(row: Row, now: int, cast: Cast) {
    || (row.taskType.Some? && row.taskType.value != "playbook_execution" && row.taskType.value != "tool_execution")
    || (exists text :: ShowsText(row, "runner_skip_reason", text))
    || (row.context.Some? && "dependency_hold" in row.context.value)
    || (exists text :: Resumes(row, text) && cast(text).Some? && cast(text).value > now)
  }

  lemma KeptColdIs(row: Row, now: int, cast: Cast)
    ensures KeptCold(row, now, cast)
       <==> NotRunnable(row) || Held(row) || (ResumeAt(row, cast).Some? && ResumeAt(row, cast).value > now)
  {
    var skip := GetText(row, "runner_skip_reason");
    if skip.Some? { GetTextIs(row, "runner_skip_reason", skip.value); }
    forall text | ShowsText(row, "runner_skip_reason", text) ensures skip == Some(text) {
      GetTextIs(row, "runner_skip_reason", text);
    }
    if ResumeText(row).Some? { ResumeTextIs(row, ResumeText(row).value); }
    forall text | Resumes(row, text) ensures ResumeText(row) == Some(text) { ResumeTextIs(row, text); }
  }

  /** Which state every patched row is in. */
  lemma FrontierStates(row: Row, now: int, cast: Cast)
    requires Patched(row, now, cast).Some?
    ensures var state := Patched(row, now, cast).value.frontierState;
            && (state == Some("ready") <==> CountsAsPending(row) && !KeptCold(row, now, cast))
            && (state == Some("cold") <==> CountsAsPending(row) && KeptCold(row, now, cast))
            && (state == Some("running") <==> row.status == Some("running"))
            && (state == Some("done") <==> !CountsAsPending(row) && row.status != Some("running"))
  {
    PatchedIs(row, now, cast);
    KeptColdIs(row, now, cast);
  }

  /** Which shard every patched row is on. */
  lemma QueueShards(row: Row, now: int, cast: Cast)
    requires Patched(row, now, cast).Some?
    ensures var shard := Patched(row, now, cast).value.queueShard;
            && (row.packId == Some("ig_analyze_pinned_reference") ==> shard == Some("ig_analysis"))
            && (row.packId in {Some("ig_batch_pin_references"), Some("ig_analyze_following")} ==>
                  shard == Some("ig_browser"))
            && (row.packId !in {Some("ig_analyze_pinned_reference"), Some("ig_batch_pin_references"),
                                Some("ig_analyze_following")} ==>
                  shard == if row.queueShard.Some? then row.queueShard else Some("default"))
  {
    PatchedIs(row, now, cast);
  }

  /** Why every patched row is blocked, if it is: a skip reason wins over a hold, and without either nothing changes. */
  lemma BlockedColumns(row: Row, now: int, cast: Cast, text: string)
    requires Patched(row, now, cast).Some?
    ensures var p := Patched(row, now, cast).value;
            var held := row.context.Some? && "dependency_hold" in row.context.value;
            && (ShowsText(row, "runner_skip_reason", text) ==> p.blockedReason == Some(text))
            && ((forall other :: !ShowsText(row, "runner_skip_reason", other)) ==>
                  p.blockedReason == if held then Some("dependency_hold") else row.blockedReason)
            && p.blockedPayload == if held then Some(DependencyHold(row.context.value["dependency_hold"]))
                                   else row.blockedPayload
  {
    PatchedIs(row, now, cast);
    GetTextIs(row, "runner_skip_reason", text);
    var skip := GetText(row, "runner_skip_reason");
    if skip.Some? { GetTextIs(row, "runner_skip_reason", skip.value); }
  }

  /** When every patched row is eligible: at its resume time, else its creation time, else now; what a ready row is
      enqueued at; and that no other column changes. */
  lemma TimesAndOtherColumns(row: Row, now: int, cast: Cast, text: string)
    requires Patched(row, now, cast).Some?
    ensures var p := Patched(row, now, cast).value;
            && (Resumes(row, text) ==> p.nextEligibleAt == cast(text))
            && ((forall other :: !Resumes(row, other)) ==>
                  p.nextEligibleAt == if row.createdAt.Some? then row.createdAt else Some(now))
            && p.frontierEnqueuedAt == (if p.frontierState != Some("ready") then None
                                        else if row.frontierEnqueuedAt.Some? then row.frontierEnqueuedAt
                                        else row.createdAt)
            && p.id == row.id && p.status == row.status && p.taskType == row.taskType && p.packId == row.packId
            && p.createdAt == row.createdAt && p.context == row.context
  {
    PatchedIs(row, now, cast);
    ResumeTextIs(row, text);
    if ResumeText(row).Some? { ResumeTextIs(row, ResumeText(row).value); }
  }

  // ---------- Main results ----------

  predicate InColdIndex(row: Row) { row.status == Some("pending") && row.frontierState == Some("cold") }

  predicate InReadyIndex(row: Row) { row.status == Some("pending") && row.frontierState == Some("ready") }

  predicate InRunningPendingIndex(row: Row) {
    row.status == Some("pending") && row.frontierState == Some("running") && row.taskType.Some? && !NotRunnable(row)
  }

  /** After the patch every pending row is in exactly one of the cold and ready indexes and no other row is
      in either; none is in the running-pending index. */
  lemma IndexesPartitionPending(row: Row, now: int, cast: Cast)
    requires Patched(row, now, cast).Some?
    ensures var p := Patched(row, now, cast).value;
            && (row.status == Some("pending") <==> (InColdIndex(p) != InReadyIndex(p)))
            && !(InColdIndex(p) && InReadyIndex(p))
            && !InRunningPendingIndex(p)
            && !(p.status == Some("pending") && p.frontierState == Some("running"))
            && p.status == row.status
  {
    PatchedIs(row, now, cast);
  }

  /** Only ready rows carry an enqueue time, and they all do once they have a creation time; a row
      created by now is ready only if it is eligible by now. */
  lemma ReadyRowsAreEnqueuedAndEligible(row: Row, now: int, cast: Cast)
    requires Patched(row, now, cast).Some?
    ensures var p := Patched(row, now, cast).value;
            && (p.frontierEnqueuedAt.Some?
                <==> p.frontierState == Some("ready") && (row.createdAt.Some? || row.frontierEnqueuedAt.Some?))
            && p.nextEligibleAt.Some?
            && (p.frontierState == Some("ready") ==>
                  (row.createdAt.Some? ==> row.createdAt.value <= now) ==> p.nextEligibleAt.value <= now)
  {
    PatchedIs(row, now, cast);
  }

  /** The patch can be applied again at the same time without further effect. */
  lemma PatchIsIdempotent(row: Row, now: int, cast: Cast)
    requires Patched(row, now, cast).Some?
    ensures Patched(Patched(row, now, cast).value, now, cast) == Patched(row, now, cast)
  {
    PatchedIs(row, now, cast);
    var p := Patched(row, now, cast).value;
    PatchedIs(p, now, cast);
    assert ResumeText(p) == ResumeText(row) && Held(p) == Held(row) && NotRunnable(p) == NotRunnable(row);
  }

  /** A pending (or status-less), runnable, un-held row whose resume time falls after `now` and by `later`. */
  predicate WakesBetween(row: Row, now: int, later: int, cast: Cast) {
    && (row.status.None? || row.status == Some("pending"))
    && !NotRunnable(row) && !Held(row)
    && ResumeAt(row, cast).Some? && now < ResumeAt(row, cast).value <= later
  }

  /** Neither a resume time nor a creation time: eligible from whatever NOW() says. */
  predicate Undated(row: Row, cast: Cast) { ResumeAt(row, cast).None? && row.createdAt.None? }

  /** Applied again later, the patch turns exactly the rows that woke in between from cold to ready; nothing
      else changes but the eligibility of undated rows. */
  lemma LaterPatchOnlyWakes(row: Row, now: int, later: int, cast: Cast)
    requires now <= later && Patched(row, now, cast).Some?
    ensures var p := Patched(row, now, cast).value;
            var q := Patched(p, later, cast);
            && q.Some?
            && (p.frontierState != q.value.frontierState <==> WakesBetween(row, now, later, cast))
            && (WakesBetween(row, now, later, cast) ==> p.frontierState == Some("cold"))
            && q.value == p.(
                 frontierState := if WakesBetween(row, now, later, cast) then Some("ready") else p.frontierState,
                 frontierEnqueuedAt :=
                   if WakesBetween(row, now, later, cast) then row.createdAt else p.frontierEnqueuedAt,
                 nextEligibleAt := if Undated(row, cast) then Some(later) else p.nextEligibleAt)
  {
    PatchedIs(row, now, cast);
    var p := Patched(row, now, cast).value;
    PatchedIs(p, later, cast);
    assert ResumeText(p) == ResumeText(row) && Held(p) == Held(row) && NotRunnable(p) == NotRunnable(row);
  }

  /** Patching early and again later equals patching only later, except that the early pass forgets the enqueue
      time of a row that wakes in between: it comes back as the creation time. */
  lemma EarlyPatchForgetsOnlyEnqueueTime(row: Row, now: int, later: int, cast: Cast)
    requires now <= later && Patched(row, now, cast).Some?
    ensures Patched(Patched(row, now, cast).value, later, cast) == Patched(row, later, cast)
       <==> !(WakesBetween(row, now, later, cast) && row.frontierEnqueuedAt.Some?
              && row.frontierEnqueuedAt != row.createdAt)
  {
    LaterPatchOnlyWakes(row, now, later, cast);
    PatchedIs(row, now, cast);
    PatchedIs(row, later, cast);
  }
}
