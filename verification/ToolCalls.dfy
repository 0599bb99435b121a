/** The tool-call handler of the gateway: any number of calls in flight on one thread of
    control, each advancing in segments between its awaits, all sharing the token store.

    The access policy, the tool-name parser and every remote reply are arbitrary. */
module ToolCalls {
  import opened Wrappers
  import opened Confirmation

  datatype Level = Primitive | Governed | Internal

  datatype Access = Access(allowed: bool, level: Level, requiresConfirmation: bool)

  datatype Env = Env(policy: string -> Access, parses: string -> bool)

  /** What the handler reads from a request. An empty confirm_token or workspace_id counts as absent. */
  datatype Args = Args(
    confirmToken: Option<string>, hasContext: bool,
    requestedTool: string, requestedWorkspace: Option<string>, actionPreview: string)

  datatype Phase =
    | Resolving                     // awaiting the workspace
    | Recording(workspaceId: string)  // awaiting the context handler
    | Executing                     // awaiting a remote execution
    | Finished(reply: Reply)

  datatype Reply =
    | AccessDenied | ProvisionFailed | ConfirmationRequired | ConfirmationFailed(reason: Reason)
    | TokenGenerated(token: string) | TokenCount(n: nat) | Completed | ExecutionError

  datatype Call = Call(name: string, args: Args, phase: Phase)

  /** One entry per started execution; `at` is the length of the token history at that moment. */
  datatype Execution = Execution(callId: nat, name: string, workspaceId: string, confirmed: bool, at: nat)

  datatype Gateway = Gateway(
    store: Store, history: History, clock: int, calls: map<nat, Call>, executions: seq<Execution>)

  // ---------- Routing behind the gate ----------

  datatype Route = Execute | IssueToken | CountTokens | Reject

  predicate StartsWith(s: string, prefix: string) { prefix <= s }

  function RouteOf(env: Env, name: string): Route {
    if StartsWith(name, "mindscape_playbook_") then
      if env.parses(name) then Execute else Reject
    else if StartsWith(name, "mindscape_tool_") then
      if env.policy(name).level == Primitive && env.parses(name) then Execute else Reject
    else if StartsWith(name, "mindscape_run_") then
      if env.parses(name) then Execute else Reject
    else if StartsWith(name, "mindscape_lens_") then
      if name == "mindscape_lens_list_schemas" || name == "mindscape_lens_resolve"
         || name == "mindscape_lens_get_effective"
      then Execute else Reject
    else if name == "mindscape_confirm_request" then IssueToken
    else if name == "mindscape_confirm_status" then CountTokens
    else if name == "mindscape_intent_submit" || name == "mindscape_intent_layout_execute"
            || name == "mindscape_chat_sync" || name == "mindscape_project_detect_and_create" then Execute
    else Reject
  }

  predicate NeedsConfirmation(env: Env, name: string) {
    var access := env.policy(name);
    access.level == Governed && access.requiresConfirmation
  }

  // ---------- Segments ----------

  function Settle(g: Gateway, id: nat, phase: Phase): Gateway
    requires id in g.calls
  {
    g.(calls := g.calls[id := g.calls[id].(phase := phase)])
  }

  /** The segment behind the gate, at one clock reading; `freshId` is the identifier a new token would get. */
  function Dispatch(env: Env, g: Gateway, id: nat, ws: string, now: int, freshId: string): Gateway
    requires id in g.calls
  {
    var call := g.calls[id];
    match RouteOf(env, call.name)
    case Execute =>
      var run := Execution(id, call.name, ws, NeedsConfirmation(env, call.name), |g.history|);
      Settle(g.(executions := g.executions + [run]), id, Executing)
    case IssueToken =>
      var target := if call.args.requestedWorkspace.Some? then call.args.requestedWorkspace.value else ws;
      var request := ConfirmRequest(target, call.args.requestedTool, call.args.actionPreview, None);
      var tok := Minted(request, freshId, now);
      Settle(
        g.(store := Swept(g.store[freshId := tok], now), history := g.history + [Issued(tok)], clock := now),
        id, Finished(TokenGenerated(freshId)))
    case CountTokens =>
      var left := Swept(g.store, now);
      Settle(
        g.(store := left, history := g.history + [Counted(now, |left|)], clock := now),
        id, Finished(TokenCount(|left|)))
    case Reject => Settle(g, id, Finished(ExecutionError))
  }

  /** The confirmation gate and, when it opens, what follows it without an await in between. */
  function PassGate(env: Env, g: Gateway, id: nat, ws: string, now: int, freshId: string): Gateway
    requires id in g.calls
  {
    var call := g.calls[id];
    if !NeedsConfirmation(env, call.name) then Dispatch(env, g, id, ws, now, freshId)
    else if call.args.confirmToken.None? then Settle(g, id, Finished(ConfirmationRequired))
    else
      var tokenId := call.args.confirmToken.value;
      var verdict := Check(g.store, tokenId, ws, call.name, now);
      var spent := g.(store := AfterCheck(g.store, tokenId, ws, call.name, now),
                      history := g.history + [Attempted(tokenId, ws, call.name, now, verdict)],
                      clock := now);
      match verdict
      case Granted(_) => Dispatch(env, spent, id, ws, now, freshId)
      case Refused(reason) => Settle(spent, id, Finished(ConfirmationFailed(reason)))
  }

  datatype Step =
    | Arrive(id: nat, name: string, args: Args)
    | Resolved(id: nat, ws: string, now: int, freshId: string)
    | ResolveFailed(id: nat)
    | Recorded(id: nat, now: int, freshId: string)
    | RecordFailed(id: nat)
    | Returned(id: nat, ok: bool)

  ghost predicate Enabled(g: Gateway, step: Step) {
    match step
    case Arrive(id, _, _) => id !in g.calls
    case Resolved(id, _, now, freshId) =>
      id in g.calls && g.calls[id].phase == Resolving && g.clock <= now && freshId !in IssuedIds(g.history)
    case ResolveFailed(id) => id in g.calls && g.calls[id].phase == Resolving
    case Recorded(id, now, freshId) =>
      id in g.calls && g.calls[id].phase.Recording? && g.clock <= now && freshId !in IssuedIds(g.history)
    case RecordFailed(id) => id in g.calls && g.calls[id].phase.Recording?
    case Returned(id, _) => id in g.calls && g.calls[id].phase == Executing
  }

  ghost function Advance(env: Env, g: Gateway, step: Step): Gateway
    requires Enabled(g, step)
  {
    match step
    case Arrive(id, name, args) =>
      var phase := if env.policy(name).allowed then Resolving else Finished(AccessDenied);
      g.(calls := g.calls[id := Call(name, args, phase)])
    case Resolved(id, ws, now, freshId) =>
      if g.calls[id].args.hasContext then Settle(g, id, Recording(ws)) else PassGate(env, g, id, ws, now, freshId)
    case ResolveFailed(id) => Settle(g, id, Finished(ProvisionFailed))
    case Recorded(id, now, freshId) => PassGate(env, g, id, g.calls[id].phase.workspaceId, now, freshId)
    case RecordFailed(id) => Settle(g, id, Finished(ExecutionError))
    case Returned(id, ok) => Settle(g, id, Finished(if ok then Completed else ExecutionError))
  }

  ghost predicate Initial(g: Gateway) {
    g.store == map[] && g.history == [] && g.calls == map[] && g.executions == []
  }

  ghost predicate IsMove(env: Env, g: Gateway, g': Gateway) {
    exists step :: Enabled(g, step) && g' == Advance(env, g, step)
  }

  /** Every interleaving is a run: a start state and one enabled step between neighbours. */
  ghost predicate IsRun(env: Env, run: seq<Gateway>) {
    && |run| > 0 && Initial(run[0])
    && forall i :: 0 <= i < |run| - 1 ==> IsMove(env, run[i], run[i + 1])
  }

  ghost function Last(run: seq<Gateway>): Gateway
    requires |run| > 0
  {
    run[|run| - 1]
  }

  // ---------- The invariant ----------

  /** Right before a confirmed execution came the redemption that paid for it. */
  ghost predicate Paid(h: History, e: Execution) {
    e.confirmed ==>
      && 0 < e.at <= |h|
      && h[e.at - 1].Attempted? && h[e.at - 1].outcome.Granted?
      && h[e.at - 1].workspaceId == e.workspaceId && h[e.at - 1].toolName == e.name
  }

  ghost predicate Waiting(p: Phase) { p.Resolving? || p.Recording? }

  ghost predicate ExecutionOk(env: Env, g: Gateway, e: Execution) {
    && Paid(g.history, e) && e.at <= |g.history|
    && e.callId in g.calls && g.calls[e.callId].name == e.name && !Waiting(g.calls[e.callId].phase)
    && env.policy(e.name).allowed && RouteOf(env, e.name) == Execute
    && e.confirmed == NeedsConfirmation(env, e.name)
  }

  /** One execution per call, in the order of the history, and one confirmed execution per redemption. */
  ghost predicate InOrder(executions: seq<Execution>) {
    && (forall i, j :: 0 <= i < j < |executions| ==> executions[i].callId != executions[j].callId)
    && (forall i, j :: 0 <= i < j < |executions| && executions[i].confirmed && executions[j].confirmed ==>
          executions[i].at < executions[j].at)
    && (forall i, j :: 0 <= i < j < |executions| ==> executions[i].at <= executions[j].at)
  }

  ghost predicate Inv(env: Env, g: Gateway) {
    && Consistent(g.history)
    && Refines(g.store, g.history, g.clock)
    && (forall e :: e in g.executions ==> ExecutionOk(env, g, e))
    && InOrder(g.executions)
    && (forall id :: id in g.calls && Waiting(g.calls[id].phase) ==> env.policy(g.calls[id].name).allowed)
  }

  /** Between the gate and the dispatch: Inv, and a redemption just made if one was needed. */
  ghost predicate Cleared(env: Env, g: Gateway, id: nat, ws: string) {
    && id in g.calls && Waiting(g.calls[id].phase)
    && (NeedsConfirmation(env, g.calls[id].name) ==>
          && Paid(g.history, Execution(id, g.calls[id].name, ws, true, |g.history|))
          && forall e :: e in g.executions ==> e.at < |g.history|)
  }

  lemma PaidExtends(h: History, more: History, e: Execution)
    requires Paid(h, e)
    ensures Paid(h + more, e)
  {
  }

  lemma SettleKeeps(env: Env, g: Gateway, id: nat, phase: Phase)
    requires Inv(env, g) && id in g.calls && Waiting(g.calls[id].phase) && !phase.Resolving?
    ensures Inv(env, Settle(g, id, phase))
  {
    forall e | e in g.executions ensures e.callId != id { }
  }

  /** A token event that the store follows keeps everything else. */
  lemma EventKeeps(env: Env, g: Gateway, event: Event, store: Store, now: int)
    requires Inv(env, g) && Consistent(g.history + [event]) && Refines(store, g.history + [event], now)
    ensures Inv(env, g.(store := store, history := g.history + [event], clock := now))
  {
    forall e | e in g.executions ensures Paid(g.history + [event], e) { PaidExtends(g.history, [event], e); }
  }

  lemma AppendInOrder(executions: seq<Execution>, run: Execution)
    requires InOrder(executions)
    requires forall e :: e in executions ==>
               e.callId != run.callId && e.at <= run.at && (e.confirmed && run.confirmed ==> e.at < run.at)
    ensures InOrder(executions + [run])
  {
    forall i | 0 <= i < |executions| ensures executions[i] in executions { }
  }

  lemma ExecuteKeeps(env: Env, g: Gateway, id: nat, ws: string)
    requires Inv(env, g) && Cleared(env, g, id, ws) && RouteOf(env, g.calls[id].name) == Execute
    ensures var run := Execution(id, g.calls[id].name, ws, NeedsConfirmation(env, g.calls[id].name), |g.history|);
            Inv(env, Settle(g.(executions := g.executions + [run]), id, Executing))
  {
    var run := Execution(id, g.calls[id].name, ws, NeedsConfirmation(env, g.calls[id].name), |g.history|);
    forall e | e in g.executions ensures e.callId != id && e.at <= run.at { assert ExecutionOk(env, g, e); }
    AppendInOrder(g.executions, run);
  }

  lemma DispatchKeeps(env: Env, g: Gateway, id: nat, ws: string, now: int, freshId: string)
    requires Inv(env, g) && Cleared(env, g, id, ws) && g.clock <= now && freshId !in IssuedIds(g.history)
    ensures Inv(env, Dispatch(env, g, id, ws, now, freshId))
  {
    var call := g.calls[id];
    match RouteOf(env, call.name)
    case Execute => ExecuteKeeps(env, g, id, ws);
    case IssueToken =>
      var target := if call.args.requestedWorkspace.Some? then call.args.requestedWorkspace.value else ws;
      var tok := Minted(ConfirmRequest(target, call.args.requestedTool, call.args.actionPreview, None), freshId, now);
      var left := Swept(g.store[freshId := tok], now);
      MintKeepsRefinement(g.store, g.history, g.clock, tok, now);
      SweepKeepsRefinement(g.store[freshId := tok], g.history + [Issued(tok)], now, now);
      EventKeeps(env, g, Issued(tok), left, now);
      SettleKeeps(env, g.(store := left, history := g.history + [Issued(tok)], clock := now),
                  id, Finished(TokenGenerated(freshId)));
    case CountTokens =>
      var left := Swept(g.store, now);
      CountKeepsRefinement(g.store, g.history, g.clock, now);
      EventKeeps(env, g, Counted(now, |left|), left, now);
      SettleKeeps(env, g.(store := left, history := g.history + [Counted(now, |left|)], clock := now),
                  id, Finished(TokenCount(|left|)));
    case Reject => SettleKeeps(env, g, id, Finished(ExecutionError));
  }

  /** After a redemption the call is cleared to run. */
  lemma RedemptionClears(env: Env, g: Gateway, id: nat, ws: string, event: Event)
    requires Inv(env, g) && id in g.calls && Waiting(g.calls[id].phase)
    requires event.Attempted? && event.outcome.Granted? && event.workspaceId == ws && event.toolName == g.calls[id].name
    ensures Cleared(env, g.(history := g.history + [event]), id, ws)
  {
    forall e | e in g.executions ensures e.at < |g.history + [event]| { }
  }

  lemma RedeemKeeps(env: Env, g: Gateway, id: nat, ws: string, tokenId: string, now: int, freshId: string)
    requires Inv(env, g) && id in g.calls && Waiting(g.calls[id].phase)
    requires g.clock <= now && freshId !in IssuedIds(g.history)
    ensures var name := g.calls[id].name;
            var verdict := Check(g.store, tokenId, ws, name, now);
            var event := Attempted(tokenId, ws, name, now, verdict);
            var spent := g.(store := AfterCheck(g.store, tokenId, ws, name, now),
                            history := g.history + [event], clock := now);
            Inv(env, spent) && freshId !in IssuedIds(spent.history) &&
            (verdict.Granted? ==> Cleared(env, spent, id, ws))
  {
    var name := g.calls[id].name;
    var event := Attempted(tokenId, ws, name, now, Check(g.store, tokenId, ws, name, now));
    CheckKeepsRefinement(g.store, g.history, g.clock, tokenId, ws, name, now);
    EventKeeps(env, g, event, AfterCheck(g.store, tokenId, ws, name, now), now);
    assert IssuedIds(g.history + [event]) == IssuedIds(g.history);
    if event.outcome.Granted? { RedemptionClears(env, g, id, ws, event); }
  }

  lemma PassGateKeeps(env: Env, g: Gateway, id: nat, ws: string, now: int, freshId: string)
    requires Inv(env, g) && id in g.calls && Waiting(g.calls[id].phase)
    requires g.clock <= now && freshId !in IssuedIds(g.history)
    ensures Inv(env, PassGate(env, g, id, ws, now, freshId))
  {
    var call := g.calls[id];
    if !NeedsConfirmation(env, call.name) {
      DispatchKeeps(env, g, id, ws, now, freshId);
    } else if call.args.confirmToken.None? {
      SettleKeeps(env, g, id, Finished(ConfirmationRequired));
    } else {
      var tokenId := call.args.confirmToken.value;
      var verdict := Check(g.store, tokenId, ws, call.name, now);
      var event := Attempted(tokenId, ws, call.name, now, verdict);
      var spent := g.(store := AfterCheck(g.store, tokenId, ws, call.name, now),
                      history := g.history + [event], clock := now);
      RedeemKeeps(env, g, id, ws, tokenId, now, freshId);
      match verdict
      case Granted(_) => DispatchKeeps(env, spent, id, ws, now, freshId);
      case Refused(reason) => SettleKeeps(env, spent, id, Finished(ConfirmationFailed(reason)));
    }
  }

  lemma AdvanceKeeps(env: Env, g: Gateway, step: Step)
    requires Inv(env, g) && Enabled(g, step)
    ensures Inv(env, Advance(env, g, step))
  {
    match step
    case Arrive(id, name, args) =>
    case Resolved(id, ws, now, freshId) =>
      if g.calls[id].args.hasContext { SettleKeeps(env, g, id, Recording(ws)); }
      else { PassGateKeeps(env, g, id, ws, now, freshId); }
    case ResolveFailed(id) => SettleKeeps(env, g, id, Finished(ProvisionFailed));
    case Recorded(id, now, freshId) => PassGateKeeps(env, g, id, g.calls[id].phase.workspaceId, now, freshId);
    case RecordFailed(id) => SettleKeeps(env, g, id, Finished(ExecutionError));
    case Returned(id, ok) =>
  }

  lemma {:induction false} EveryRunKeepsInv(env: Env, run: seq<Gateway>)
    requires IsRun(env, run)
    ensures Inv(env, Last(run))
  {
    if |run| == 1 {
    } else {
      var before := run[..|run| - 1];
      forall i | 0 <= i < |before| - 1 ensures IsMove(env, before[i], before[i + 1]) {
        assert IsMove(env, run[i], run[i + 1]);
      }
      EveryRunKeepsInv(env, before);
      assert IsMove(env, run[|run| - 2], Last(run));
      var step :| Enabled(run[|run| - 2], step) && Last(run) == Advance(env, run[|run| - 2], step);
      AdvanceKeeps(env, run[|run| - 2], step);
    }
  }

  // ---------- The theorems ----------

  /** Position `k` of the token history is an issue, made before execution `e`, of a token
      for the same workspace and tool. */
  ghost predicate PaysFor(h: History, e: Execution, k: nat) {
    k < e.at <= |h| && h[k].Issued? && h[k].tok.workspaceId == e.workspaceId && h[k].tok.toolName == e.name
  }

  ghost predicate IsPayment(g: Gateway, pay: map<nat, nat>) {
    && (forall i: nat :: i in pay <==> i < |g.executions| && g.executions[i].confirmed)
    && (forall i: nat :: i in pay ==> PaysFor(g.history, g.executions[i], pay[i]))
    && (forall i: nat, j: nat :: i in pay && j in pay && i != j ==> pay[i] != pay[j])
  }

  /** The token issued at `k` is the one whose redemption let execution `e` pass. */
  ghost predicate RedeemedFor(h: History, e: Execution, k: nat) {
    PaysFor(h, e, k) && IsRedemption(h[e.at - 1], h[k].tok.token)
  }

  lemma IssueOf(env: Env, g: Gateway, i: nat) returns (k: nat)
    requires Inv(env, g) && i < |g.executions| && g.executions[i].confirmed
    ensures RedeemedFor(g.history, g.executions[i], k)
  {
    var e := g.executions[i];
    assert e in g.executions && Paid(g.history, e);
    k := RedemptionHasIssue(g.history, e.at - 1);
  }

  lemma {:induction false} PaymentUpTo(g: Gateway, n: nat) returns (pay: map<nat, nat>)
    requires n <= |g.executions|
    requires forall i: nat :: i < n && g.executions[i].confirmed ==>
               exists k :: RedeemedFor(g.history, g.executions[i], k)
    ensures forall i: nat :: i in pay <==> i < n && g.executions[i].confirmed
    ensures forall i: nat :: i in pay ==> RedeemedFor(g.history, g.executions[i], pay[i])
  {
    if n == 0 { return map[]; }
    pay := PaymentUpTo(g, n - 1);
    if g.executions[n - 1].confirmed {
      var k :| RedeemedFor(g.history, g.executions[n - 1], k);
      pay := pay[n - 1 := k];
    }
  }

  lemma PaymentsDiffer(h: History, e: Execution, f: Execution, k: nat, l: nat)
    requires Consistent(h) && e.at < f.at && RedeemedFor(h, e, k) && RedeemedFor(h, f, l)
    ensures k != l
  {
    RedeemedAtMostOnce(h, e.at - 1, f.at - 1, h[k].tok.token);
  }

  /** Over every interleaving, the confirmed executions inject into earlier confirm requests
      for the same workspace and tool, even when calls share a token. */
  lemma ConfirmedExecutionsArePaid(env: Env, run: seq<Gateway>) returns (pay: map<nat, nat>)
    requires IsRun(env, run)
    ensures IsPayment(Last(run), pay)
  {
    EveryRunKeepsInv(env, run);
    var g := Last(run);
    forall i: nat | i < |g.executions| && g.executions[i].confirmed
      ensures exists k :: RedeemedFor(g.history, g.executions[i], k)
    {
      var k := IssueOf(env, g, i);
    }
    pay := PaymentUpTo(g, |g.executions|);
    forall i: nat, j: nat | i in pay && j in pay && i < j ensures pay[i] != pay[j] {
      PaymentsDiffer(g.history, g.executions[i], g.executions[j], pay[i], pay[j]);
    }
  }

  /** The positions of the confirmed executions of a tool in a workspace. */
  ghost function ConfirmedSpots(executions: seq<Execution>, ws: string, name: string): set<nat> {
    set i: nat | i < |executions| && executions[i].confirmed &&
      executions[i].workspaceId == ws && executions[i].name == name
  }

  ghost function IssueSpots(h: History, ws: string, name: string): set<nat> {
    set k: nat | k < |h| && h[k].Issued? && h[k].tok.workspaceId == ws && h[k].tok.toolName == name
  }

  lemma {:induction false} InjectionSize(f: map<nat, nat>, a: set<nat>, b: set<nat>)
    requires forall i :: i in a ==> i in f && f[i] in b
    requires forall i, j :: i in a && j in a && i != j ==> f[i] != f[j]
    ensures |a| <= |b|
    decreases a
  {
    if a == {} {
    } else {
      var x :| x in a;
      InjectionSize(f, a - {x}, b - {f[x]});
    }
  }

  /** Confirmed executions of a tool in a workspace never outnumber the tokens issued for it. */
  lemma ExecutionsNeverOutnumberTokens(env: Env, run: seq<Gateway>, ws: string, name: string)
    requires IsRun(env, run)
    ensures var g := Last(run);
            |ConfirmedSpots(g.executions, ws, name)| <= |IssueSpots(g.history, ws, name)|
  {
    var g := Last(run);
    var pay := ConfirmedExecutionsArePaid(env, run);
    InjectionSize(pay, ConfirmedSpots(g.executions, ws, name), IssueSpots(g.history, ws, name));
  }

  lemma ConfirmedIsNotPrimitive(env: Env, name: string)
    requires RouteOf(env, name) == Execute && NeedsConfirmation(env, name)
    ensures !StartsWith(name, "mindscape_tool_")
  {
    if StartsWith(name, "mindscape_playbook_") { assert name[10] == 'p'; }
  }

  /** A call executes at most once, only if the policy allows it, and never as a primitive tool
      when it needs confirmation: such a call spends its token and is then rejected. */
  lemma ExecutionsRespectPolicy(env: Env, run: seq<Gateway>)
    requires IsRun(env, run)
    ensures var runs := Last(run).executions;
            && (forall i, j :: 0 <= i < j < |runs| ==> runs[i].callId != runs[j].callId)
            && (forall e :: e in runs ==> env.policy(e.name).allowed && e.confirmed == NeedsConfirmation(env, e.name))
            && (forall e :: e in runs && e.confirmed ==> !StartsWith(e.name, "mindscape_tool_"))
  {
    EveryRunKeepsInv(env, run);
    forall e | e in Last(run).executions && e.confirmed ensures !StartsWith(e.name, "mindscape_tool_") {
      ConfirmedIsNotPrimitive(env, e.name);
    }
  }

  // ---------- What an accepted token pays for ----------

  ghost predicate IsGrant(e: Event) { e.Attempted? && e.outcome.Granted? }

  /** The execution that the redemption at position k of the token history paid for. */
  ghost predicate PaidAt(executions: seq<Execution>, k: nat) {
    exists e :: e in executions && e.confirmed && e.at == k + 1
  }

  /** Every redemption so far whose tool has an execution behind it paid for one. */
  ghost predicate Accounted(env: Env, h: History, executions: seq<Execution>) {
    forall k: nat :: k < |h| && IsGrant(h[k]) && RouteOf(env, h[k].toolName) == Execute ==> PaidAt(executions, k)
  }

  lemma AccountedExtends(env: Env, h: History, executions: seq<Execution>, event: Event)
    requires Accounted(env, h, executions)
    requires IsGrant(event) && RouteOf(env, event.toolName) == Execute ==> PaidAt(executions, |h|)
    ensures Accounted(env, h + [event], executions)
  {
  }

  lemma MoreExecutionsAccount(env: Env, h: History, executions: seq<Execution>, run: Execution)
    requires Accounted(env, h, executions)
    ensures Accounted(env, h, executions + [run])
  {
    forall k: nat | k < |h| && PaidAt(executions, k) ensures PaidAt(executions + [run], k) {
      var e :| e in executions && e.confirmed && e.at == k + 1;
      assert e in executions + [run];
    }
  }

  lemma DispatchAccounts(env: Env, g: Gateway, id: nat, ws: string, now: int, freshId: string)
    requires id in g.calls && Accounted(env, g.history, g.executions)
    ensures var g' := Dispatch(env, g, id, ws, now, freshId); Accounted(env, g'.history, g'.executions)
  {
    var g' := Dispatch(env, g, id, ws, now, freshId);
    if RouteOf(env, g.calls[id].name) == Execute {
      MoreExecutionsAccount(env, g.history, g.executions, g'.executions[|g.executions|]);
    } else if g'.history != g.history {
      AccountedExtends(env, g.history, g.executions, g'.history[|g.history|]);
    }
  }

  /** A granted call whose tool executes is accounted for by that very execution. */
  lemma GrantAccounts(env: Env, g: Gateway, id: nat, ws: string, now: int, freshId: string, event: Event)
    requires id in g.calls && Accounted(env, g.history, g.executions)
    requires NeedsConfirmation(env, g.calls[id].name) && event.Attempted? && event.toolName == g.calls[id].name
    ensures var g' := Dispatch(env, g.(history := g.history + [event]), id, ws, now, freshId);
            Accounted(env, g'.history, g'.executions)
  {
    var spent := g.(history := g.history + [event]);
    var g' := Dispatch(env, spent, id, ws, now, freshId);
    if RouteOf(env, event.toolName) == Execute {
      var run := g'.executions[|g.executions|];
      MoreExecutionsAccount(env, g.history, g.executions, run);
      assert run in g'.executions && run.confirmed && run.at == |g.history| + 1;
      AccountedExtends(env, g.history, g'.executions, event);
    } else {
      AccountedExtends(env, g.history, g.executions, event);
      DispatchAccounts(env, spent, id, ws, now, freshId);
    }
  }

  lemma PassGateAccounts(env: Env, g: Gateway, id: nat, ws: string, now: int, freshId: string)
    requires id in g.calls && Accounted(env, g.history, g.executions)
    ensures var g' := PassGate(env, g, id, ws, now, freshId); Accounted(env, g'.history, g'.executions)
  {
    var call := g.calls[id];
    if !NeedsConfirmation(env, call.name) {
      DispatchAccounts(env, g, id, ws, now, freshId);
    } else if call.args.confirmToken.Some? {
      var tokenId := call.args.confirmToken.value;
      var verdict := Check(g.store, tokenId, ws, call.name, now);
      var event := Attempted(tokenId, ws, call.name, now, verdict);
      var before := g.(store := AfterCheck(g.store, tokenId, ws, call.name, now), clock := now);
      match verdict
      case Granted(_) => GrantAccounts(env, before, id, ws, now, freshId, event);
      case Refused(_) => AccountedExtends(env, g.history, g.executions, event);
    }
  }

  lemma AdvanceAccounts(env: Env, g: Gateway, step: Step)
    requires Enabled(g, step) && Accounted(env, g.history, g.executions)
    ensures var g' := Advance(env, g, step); Accounted(env, g'.history, g'.executions)
  {
    match step
    case Resolved(id, ws, now, freshId) =>
      if !g.calls[id].args.hasContext { PassGateAccounts(env, g, id, ws, now, freshId); }
    case Recorded(id, now, freshId) => PassGateAccounts(env, g, id, g.calls[id].phase.workspaceId, now, freshId);
    case _ =>
  }

  lemma {:induction false} EveryRunAccounts(env: Env, run: seq<Gateway>)
    requires IsRun(env, run)
    ensures Accounted(env, Last(run).history, Last(run).executions)
  {
    if |run| == 1 {
    } else {
      var before := run[..|run| - 1];
      forall i | 0 <= i < |before| - 1 ensures IsMove(env, before[i], before[i + 1]) {
        assert IsMove(env, run[i], run[i + 1]);
      }
      EveryRunAccounts(env, before);
      assert IsMove(env, run[|run| - 2], Last(run));
      var step :| Enabled(run[|run| - 2], step) && Last(run) == Advance(env, run[|run| - 2], step);
      AdvanceAccounts(env, run[|run| - 2], step);
    }
  }

  /** Over every run, an accepted token pays for an execution if and only if its tool's name leads to one; any
      other accepted token is lost. */
  lemma AcceptedTokenPaysExactlyWhenRouted(env: Env, run: seq<Gateway>, k: nat)
    requires IsRun(env, run) && k < |Last(run).history| && IsGrant(Last(run).history[k])
    ensures PaidAt(Last(run).executions, k) <==> RouteOf(env, Last(run).history[k].toolName) == Execute
  {
    EveryRunAccounts(env, run);
    EveryRunKeepsInv(env, run);
    var g := Last(run);
    if PaidAt(g.executions, k) {
      var e :| e in g.executions && e.confirmed && e.at == k + 1;
      assert Paid(g.history, e);
    }
  }

  /** The gate's verdict "granted" takes the token from the store in every case; the call starts one execution if
      its name leads to one, and is answered with an error if its name is rejected. */
  lemma GrantSpendsToken(env: Env, g: Gateway, id: nat, ws: string, now: int, freshId: string)
    requires Inv(env, g) && id in g.calls && freshId !in IssuedIds(g.history)
    requires NeedsConfirmation(env, g.calls[id].name) && g.calls[id].args.confirmToken.Some?
    requires Check(g.store, g.calls[id].args.confirmToken.value, ws, g.calls[id].name, now).Granted?
    ensures var name, tokenId := g.calls[id].name, g.calls[id].args.confirmToken.value;
            var g' := PassGate(env, g, id, ws, now, freshId);
            && tokenId in g.store && tokenId !in g'.store
            && (RouteOf(env, name) == Execute <==>
                  g'.executions == g.executions + [Execution(id, name, ws, true, |g.history| + 1)])
            && (RouteOf(env, name) != Execute <==> g'.executions == g.executions)
            && (RouteOf(env, name) == Reject <==> g'.calls[id].phase == Finished(ExecutionError))
  {
    var tokenId := g.calls[id].args.confirmToken.value;
    assert Issued(g.store[tokenId]).tok.token in IssuedIds(g.history);
  }

  /** Two families of names for which an accepted token is lost: primitive tools, which a call that needs
      confirmation never is, and governed tools whose name does not parse. */
  lemma TokensLostOnRejectedNames(env: Env, rest: string)
    ensures NeedsConfirmation(env, "mindscape_tool_" + rest) ==> RouteOf(env, "mindscape_tool_" + rest) == Reject
    ensures !env.parses("mindscape_run_" + rest) ==> RouteOf(env, "mindscape_run_" + rest) == Reject
  {
    var tool, run := "mindscape_tool_" + rest, "mindscape_run_" + rest;
    assert tool[10] == 't' && run[10] == 'r';
    assert "mindscape_playbook_"[10] == 'p' && "mindscape_tool_"[10] == 't' && "mindscape_lens_"[10] == 'l';
  }

  lemma OnlyOneNameIssues(env: Env, name: string)
    ensures RouteOf(env, name) == IssueToken <==> name == "mindscape_confirm_request"
  {
    var issuing := "mindscape_confirm_request";
    assert issuing[10] == 'c';
  }

  /** Only one name issues tokens, and the one the handler's messages advertise is rejected. */
  lemma AdvertisedToolIsRejected(env: Env)
    ensures RouteOf(env, "mindscape.confirm.request") == Reject
    ensures forall name :: RouteOf(env, name) == IssueToken <==> name == "mindscape_confirm_request"
  {
    var advertised := "mindscape.confirm.request";
    assert advertised[9] == '.';
    forall name ensures RouteOf(env, name) == IssueToken <==> name == "mindscape_confirm_request" {
      OnlyOneNameIssues(env, name);
    }
  }

  // ---------- The gate in terms of the policy ----------

  /** Every execution that the policy calls governed and confirmation-requiring comes right after a granted attempt
      for its workspace and name; and exactly those executions inject into earlier confirm requests for the same. */
  lemma GovernedExecutionsArePaid(env: Env, run: seq<Gateway>) returns (pay: map<nat, nat>)
    requires IsRun(env, run)
    ensures var g := Last(run);
            && (forall i: nat :: i in pay <==>
                  && i < |g.executions| && env.policy(g.executions[i].name).level == Governed
                  && env.policy(g.executions[i].name).requiresConfirmation)
            && (forall i: nat :: i in pay ==>
                  var e := g.executions[i];
                  && 0 < e.at <= |g.history| && IsGrant(g.history[e.at - 1])
                  && g.history[e.at - 1].workspaceId == e.workspaceId && g.history[e.at - 1].toolName == e.name
                  && PaysFor(g.history, e, pay[i]))
            && (forall i: nat, j: nat :: i in pay && j in pay && i != j ==> pay[i] != pay[j])
  {
    EveryRunKeepsInv(env, run);
    pay := ConfirmedExecutionsArePaid(env, run);
    var g := Last(run);
    forall i: nat | i < |g.executions| ensures ExecutionOk(env, g, g.executions[i]) {
      assert g.executions[i] in g.executions;
    }
  }

  /** A governed, confirmation-requiring call without a token is asked to confirm, and nothing else happens. */
  lemma GovernedCallWithoutToken(env: Env, g: Gateway, id: nat, ws: string, now: int, freshId: string)
    requires id in g.calls && g.calls[id].args.confirmToken.None?
    requires env.policy(g.calls[id].name).level == Governed && env.policy(g.calls[id].name).requiresConfirmation
    ensures var g' := PassGate(env, g, id, ws, now, freshId);
            && g' == g.(calls := g'.calls)
            && g'.calls == g.calls[id := g.calls[id].(phase := Finished(ConfirmationRequired))]
  {
  }

  /** Any other call whose name leads to an execution starts it, with a token or without, and leaves the tokens
      alone. */
  lemma OtherCallsNeedNoToken(env: Env, g: Gateway, id: nat, ws: string, now: int, freshId: string)
    requires id in g.calls && RouteOf(env, g.calls[id].name) == Execute
    requires !(env.policy(g.calls[id].name).level == Governed && env.policy(g.calls[id].name).requiresConfirmation)
    ensures var g' := PassGate(env, g, id, ws, now, freshId);
            && g'.store == g.store && g'.history == g.history && g'.calls[id].phase == Executing
            && g'.executions == g.executions + [Execution(id, g.calls[id].name, ws, false, |g.history|)]
  {
  }

  /** A call that arrives is denied at once if the policy does not allow it, and waits for its workspace otherwise. */
  lemma ArrivalFollowsPolicy(env: Env, g: Gateway, id: nat, name: string, args: Args)
    requires id !in g.calls
    ensures var g' := Advance(env, g, Arrive(id, name, args));
            && g' == g.(calls := g'.calls) && id in g'.calls
            && g'.calls[id].phase == if env.policy(name).allowed then Resolving else Finished(AccessDenied)
  {
  }

  /** Which names lead to an execution, family by family. */
  lemma ExecutingNames(env: Env, rest: string)
    ensures RouteOf(env, "mindscape_playbook_" + rest) == Execute <==> env.parses("mindscape_playbook_" + rest)
    ensures RouteOf(env, "mindscape_run_" + rest) == Execute <==> env.parses("mindscape_run_" + rest)
    ensures RouteOf(env, "mindscape_tool_" + rest) == Execute
       <==> env.policy("mindscape_tool_" + rest).level == Primitive && env.parses("mindscape_tool_" + rest)
    ensures RouteOf(env, "mindscape_lens_" + rest) == Execute
       <==> rest == "list_schemas" || rest == "resolve" || rest == "get_effective"
  {
    var tool, run, lens := "mindscape_tool_" + rest, "mindscape_run_" + rest, "mindscape_lens_" + rest;
    assert tool[10] == 't' && run[10] == 'r' && lens[10] == 'l';
    assert "mindscape_playbook_"[10] == 'p' && "mindscape_tool_"[10] == 't' && "mindscape_run_"[10] == 'r';
    assert lens[15..] == rest;
    assert "mindscape_lens_" + "list_schemas" == "mindscape_lens_list_schemas";
    assert "mindscape_lens_" + "resolve" == "mindscape_lens_resolve";
    assert "mindscape_lens_" + "get_effective" == "mindscape_lens_get_effective";
  }

  /** Only this call's phase changes. */
  function Answered(g: Gateway, id: nat, phase: Phase): Gateway
    requires id in g.calls
  {
    Gateway(g.store, g.history, g.clock,
            g.calls[id := Call(g.calls[id].name, g.calls[id].args, phase)], g.executions)
  }

  /** Before and after the gate: a call with context is recorded under its resolved workspace first and then passes
      the gate with it; a failure on the way, and the return of an execution, answer the call and do nothing else. */
  lemma StepsAroundTheGate(env: Env, g: Gateway, id: nat, ws: string, now: int, freshId: string, ok: bool)
    requires id in g.calls
    ensures Enabled(g, Resolved(id, ws, now, freshId)) ==>
              Advance(env, g, Resolved(id, ws, now, freshId))
              == if g.calls[id].args.hasContext then Answered(g, id, Recording(ws))
                 else PassGate(env, g, id, ws, now, freshId)
    ensures Enabled(g, Recorded(id, now, freshId)) && g.calls[id].phase == Recording(ws) ==>
              Advance(env, g, Recorded(id, now, freshId)) == PassGate(env, g, id, ws, now, freshId)
    ensures Enabled(g, ResolveFailed(id)) ==>
              Advance(env, g, ResolveFailed(id)) == Answered(g, id, Finished(ProvisionFailed))
    ensures Enabled(g, RecordFailed(id)) ==>
              Advance(env, g, RecordFailed(id)) == Answered(g, id, Finished(ExecutionError))
    ensures Enabled(g, Returned(id, ok)) ==>
              Advance(env, g, Returned(id, ok)) == Answered(g, id, Finished(if ok then Completed else ExecutionError))
  {
  }

  /** A token the gate refuses answers with the reason and starts nothing. */
  lemma RefusedTokenStartsNothing(env: Env, g: Gateway, id: nat, ws: string, now: int, freshId: string, reason: Reason)
    requires id in g.calls && g.calls[id].args.confirmToken.Some?
    requires env.policy(g.calls[id].name).level == Governed && env.policy(g.calls[id].name).requiresConfirmation
    requires Check(g.store, g.calls[id].args.confirmToken.value, ws, g.calls[id].name, now) == Refused(reason)
    ensures var g' := PassGate(env, g, id, ws, now, freshId);
            && g'.executions == g.executions && g'.calls[id].phase == Finished(ConfirmationFailed(reason))
            && (reason != Expired ==> g'.store == g.store)
  {
  }

  lemma OtherExecutingNames(env: Env, name: string)
    requires !StartsWith(name, "mindscape_playbook_") && !StartsWith(name, "mindscape_tool_")
    requires !StartsWith(name, "mindscape_run_") && !StartsWith(name, "mindscape_lens_")
    ensures RouteOf(env, name) == Execute
       <==> || name == "mindscape_intent_submit" || name == "mindscape_intent_layout_execute"
            || name == "mindscape_chat_sync" || name == "mindscape_project_detect_and_create"
    ensures RouteOf(env, name) == CountTokens <==> name == "mindscape_confirm_status"
  {
    assert "mindscape_confirm_status"[10..13] == "con" && "mindscape_confirm_request"[18] == 'r';
    assert "mindscape_confirm_status"[18] == 's' && "mindscape_intent_submit"[10] == 'i';
    assert "mindscape_intent_layout_execute"[10] == 'i' && "mindscape_chat_sync"[11] == 'h';
    assert "mindscape_project_detect_and_create"[10] == 'p';
  }

  // ---------- From the confirm request to the execution ----------

  lemma DispatchExtendsHistory(env: Env, g: Gateway, id: nat, ws: string, now: int, freshId: string)
    requires id in g.calls
    ensures g.history <= Dispatch(env, g, id, ws, now, freshId).history
  {
  }

  lemma PassGateExtendsHistory(env: Env, g: Gateway, id: nat, ws: string, now: int, freshId: string)
    requires id in g.calls
    ensures g.history <= PassGate(env, g, id, ws, now, freshId).history
  {
    var call := g.calls[id];
    DispatchExtendsHistory(env, g, id, ws, now, freshId);
    if NeedsConfirmation(env, call.name) && call.args.confirmToken.Some? {
      var tokenId := call.args.confirmToken.value;
      var event := Attempted(tokenId, ws, call.name, now, Check(g.store, tokenId, ws, call.name, now));
      var spent := g.(store := AfterCheck(g.store, tokenId, ws, call.name, now),
                      history := g.history + [event], clock := now);
      DispatchExtendsHistory(env, spent, id, ws, now, freshId);
    }
  }

  lemma StepExtendsHistory(env: Env, g: Gateway, step: Step)
    requires Enabled(g, step)
    ensures g.history <= Advance(env, g, step).history
  {
    match step
    case Resolved(id, ws, now, freshId) => PassGateExtendsHistory(env, g, id, ws, now, freshId);
    case Recorded(id, now, freshId) =>
      PassGateExtendsHistory(env, g, id, g.calls[id].phase.workspaceId, now, freshId);
    case _ =>
  }

  lemma {:induction false} HistoryGrows(env: Env, run: seq<Gateway>, i: nat, j: nat)
    requires IsRun(env, run) && i <= j < |run|
    ensures run[i].history <= run[j].history
    decreases j - i
  {
    if i == j {
    } else {
      assert IsMove(env, run[j - 1], run[j - 1 + 1]);
      var step :| Enabled(run[j - 1], step) && run[j] == Advance(env, run[j - 1], step);
      StepExtendsHistory(env, run[j - 1], step);
      HistoryGrows(env, run, i, j - 1);
    }
  }

  lemma InvAt(env: Env, run: seq<Gateway>, j: nat)
    requires IsRun(env, run) && j < |run|
    ensures Inv(env, run[j])
  {
    var part := run[..j + 1];
    forall i | 0 <= i < |part| - 1 ensures IsMove(env, part[i], part[i + 1]) { assert IsMove(env, run[i], run[i + 1]); }
    EveryRunKeepsInv(env, part);
  }

  /** The confirm request answers with a token for the requested tool and, unless another workspace is requested,
      the call's own. */
  lemma ConfirmRequestIssues(env: Env, g: Gateway, id: nat, ws: string, now: int, freshId: string)
    requires id in g.calls && g.calls[id].name == "mindscape_confirm_request"
    requires !(env.policy(g.calls[id].name).level == Governed && env.policy(g.calls[id].name).requiresConfirmation)
    ensures var g', args := PassGate(env, g, id, ws, now, freshId), g.calls[id].args;
            && g'.calls[id].phase == Finished(TokenGenerated(freshId))
            && g'.history == g.history + [Issued(ConfirmToken(
                 freshId, if args.requestedWorkspace.Some? then args.requestedWorkspace.value else ws,
                 args.requestedTool, args.actionPreview, now + 300000, now))]
  {
    OnlyOneNameIssues(env, g.calls[id].name);
  }

  lemma StoredTokenExecutes(
    env: Env, g: Gateway, id: nat, ws: string, now: int, freshId: string, tok: ConfirmToken)
    requires id in g.calls && RouteOf(env, g.calls[id].name) == Execute
    requires env.policy(g.calls[id].name).level == Governed && env.policy(g.calls[id].name).requiresConfirmation
    requires g.calls[id].args.confirmToken == Some(tok.token) && tok.token in g.store && g.store[tok.token] == tok
    requires tok.workspaceId == ws && tok.toolName == g.calls[id].name && now <= tok.expiresAt
    ensures var g' := PassGate(env, g, id, ws, now, freshId);
            && g'.executions == g.executions + [Execution(id, g.calls[id].name, ws, true, |g.history| + 1)]
            && g'.calls[id].phase == Executing && tok.token !in g'.store
  {
  }

  lemma UnspentTokenIsStored(env: Env, run: seq<Gateway>, i: nat, j: nat, tok: ConfirmToken)
    requires IsRun(env, run) && i < j < |run|
    requires run[i + 1].history == run[i].history + [Issued(tok)] && run[j].clock <= tok.expiresAt
    requires forall e :: e in run[j].history && IsGrant(e) ==> e.id != tok.token
    ensures tok.token in run[j].store && run[j].store[tok.token] == tok
  {
    HistoryGrows(env, run, i + 1, j);
    InvAt(env, run, j);
    var g, k := run[j], |run[i].history|;
    assert run[i + 1].history[k] == g.history[k] && g.history[k] in g.history;
    assert !Redeemed(g.history, tok.token);
    assert Usable(g.history, tok, g.clock);
  }

  /** The whole flow, with any calls in between: a token issued for a workspace and a governed tool lets a call of
      that tool in that workspace execute within five minutes, unless it was accepted before. */
  lemma ConfirmFlowExecutes(
    env: Env, run: seq<Gateway>, i: nat, id: nat, ws: string, now: int, freshId: string,
    j: nat, caller: nat, target: string, later: int, nextId: string)
    requires IsRun(env, run) && i < j < |run|
    requires id in run[i].calls && run[i].calls[id].name == "mindscape_confirm_request"
    requires !(env.policy("mindscape_confirm_request").level == Governed
               && env.policy("mindscape_confirm_request").requiresConfirmation)
    requires run[i + 1] == PassGate(env, run[i], id, ws, now, freshId)
    requires var args := run[i].calls[id].args;
             target == if args.requestedWorkspace.Some? then args.requestedWorkspace.value else ws
    requires caller in run[j].calls && run[j].calls[caller].args.confirmToken == Some(freshId)
    requires run[j].calls[caller].name == run[i].calls[id].args.requestedTool
    requires var name := run[j].calls[caller].name;
             && env.policy(name).level == Governed && env.policy(name).requiresConfirmation
             && RouteOf(env, name) == Execute
    requires run[j].clock <= later <= now + 300000
    requires forall e :: e in run[j].history && IsGrant(e) ==> e.id != freshId
    ensures var g, g' := run[j], PassGate(env, run[j], caller, target, later, nextId);
            && g'.executions == g.executions + [Execution(caller, g.calls[caller].name, target, true, |g.history| + 1)]
            && g'.calls[caller].phase == Executing && freshId !in g'.store
  {
    ConfirmRequestIssues(env, run[i], id, ws, now, freshId);
    var tok := run[i + 1].history[|run[i].history|].tok;
    UnspentTokenIsStored(env, run, i, j, tok);
    StoredTokenExecutes(env, run[j], caller, target, later, nextId, tok);
  }
}
