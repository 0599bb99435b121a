/** The confirmation-token store: a mutable map with expiry, lazy clean-up,
    workspace and tool binding and one-time redemption.

    The map is shown to refine a specification that looks only at the history of
    what was issued, attempted and counted. Times are milliseconds. */
module Confirmation {
  import opened Wrappers

  const DEFAULT_EXPIRY_SECONDS := 300

  datatype ConfirmRequest = ConfirmRequest(
    workspaceId: string, toolName: string, actionPreview: string, expiresInSeconds: Option<int>)

  datatype ConfirmToken = ConfirmToken(
    token: string, workspaceId: string, toolName: string, actionPreview: string,
    expiresAt: int, createdAt: int)

  datatype Reason = NotFound | Expired | WorkspaceMismatch | ToolMismatch(issuedFor: string)

  datatype Validation = Granted(info: ConfirmToken) | Refused(reason: Reason)

  type Store = map<string, ConfirmToken>

  // ---------- What the store does ----------

  /** A missing lifetime and a lifetime of zero both mean the default. */
  function Minted(request: ConfirmRequest, id: string, now: int): ConfirmToken {
    var seconds := if request.expiresInSeconds.Some? && request.expiresInSeconds.value != 0
                   then request.expiresInSeconds.value else DEFAULT_EXPIRY_SECONDS;
    ConfirmToken(id, request.workspaceId, request.toolName, request.actionPreview, now + seconds * 1000, now)
  }

  /** So only a lifetime that is missing, zero or the default itself lasts the default. */
  lemma DefaultLifetimeExactlyWhen(request: ConfirmRequest, id: string, now: int)
    ensures Minted(request, id, now).expiresAt == now + DEFAULT_EXPIRY_SECONDS * 1000
       <==> || request.expiresInSeconds.None?
            || request.expiresInSeconds.value == 0 || request.expiresInSeconds.value == DEFAULT_EXPIRY_SECONDS
  {
  }

  function Swept(store: Store, now: int): Store {
    map id | id in store && now <= store[id].expiresAt :: store[id]
  }

  function Check(store: Store, id: string, workspaceId: string, toolName: string, now: int): Validation {
    if id !in store then Refused(NotFound)
    else if now > store[id].expiresAt then Refused(Expired)
    else if store[id].workspaceId != workspaceId then Refused(WorkspaceMismatch)
    else if store[id].toolName != toolName then Refused(ToolMismatch(store[id].toolName))
    else Granted(store[id])
  }

  function AfterCheck(store: Store, id: string, workspaceId: string, toolName: string, now: int): Store {
    match Check(store, id, workspaceId, toolName, now)
    case Granted(_) => store - {id}
    case Refused(Expired) => store - {id}
    case Refused(_) => store
  }

  /** A check removes a token exactly when it has expired or is granted, and never another one. */
  lemma CheckRemovesExactly(store: Store, id: string, workspaceId: string, toolName: string, now: int, other: string)
    ensures other in AfterCheck(store, id, workspaceId, toolName, now)
       <==> && other in store
            && !(other == id && (now > store[id].expiresAt
                                 || (store[id].workspaceId == workspaceId && store[id].toolName == toolName)))
    ensures other in AfterCheck(store, id, workspaceId, toolName, now) ==>
              AfterCheck(store, id, workspaceId, toolName, now)[other] == store[other]
  {
  }

  // ---------- The history-only specification ----------

  datatype Event =
    | Issued(tok: ConfirmToken)
    | Attempted(id: string, workspaceId: string, toolName: string, at: int, outcome: Validation)
    | Counted(at: int, n: nat)

  type History = seq<Event>

  ghost predicate IsRedemption(e: Event, id: string) {
    e.Attempted? && e.id == id && e.outcome.Granted?
  }

  ghost predicate Redeemed(h: History, id: string) {
    exists e :: e in h && IsRedemption(e, id)
  }

  /** Issued, never yet redeemed, and not past its expiry. */
  ghost predicate Usable(h: History, tok: ConfirmToken, now: int) {
    Issued(tok) in h && !Redeemed(h, tok.token) && now <= tok.expiresAt
  }

  ghost function IssuedIds(h: History): set<string> {
    set e | e in h && e.Issued? :: e.tok.token
  }

  ghost function RedeemedIds(h: History): set<string> {
    set e | e in h && e.Attempted? && e.outcome.Granted? :: e.id
  }

  ghost function ActiveIds(h: History, now: int): set<string> {
    set e | e in h && e.Issued? && Usable(h, e.tok, now) :: e.tok.token
  }

  /** Lapsed without being redeemed. */
  ghost function LapsedIds(h: History, now: int): set<string> {
    set e | e in h && e.Issued? && !Redeemed(h, e.tok.token) && now > e.tok.expiresAt :: e.tok.token
  }

  /** The verdict the history alone dictates. */
  ghost predicate Grants(h: History, id: string, workspaceId: string, toolName: string, now: int) {
    exists tok :: Usable(h, tok, now) && tok.token == id && tok.workspaceId == workspaceId && tok.toolName == toolName
  }

  ghost predicate OutcomeOk(
    h: History, id: string, workspaceId: string, toolName: string, at: int, outcome: Validation)
  {
    && (outcome.Granted? <==> Grants(h, id, workspaceId, toolName, at))
    && match outcome
       case Granted(info) =>
         Usable(h, info, at) && info.token == id && info.workspaceId == workspaceId && info.toolName == toolName
       case Refused(WorkspaceMismatch) =>
         exists tok :: Usable(h, tok, at) && tok.token == id && tok.workspaceId != workspaceId
       case Refused(ToolMismatch(issuedFor)) =>
         exists tok :: Usable(h, tok, at) && tok.token == id && tok.workspaceId == workspaceId
                       && tok.toolName == issuedFor != toolName
       case Refused(_) =>
         forall tok: ConfirmToken :: tok.token == id ==> !Usable(h, tok, at)
  }

  ghost predicate EventOk(h: History, e: Event) {
    match e
    case Issued(tok) => tok.token !in IssuedIds(h)
    case Attempted(id, workspaceId, toolName, at, outcome) => OutcomeOk(h, id, workspaceId, toolName, at, outcome)
    case Counted(at, n) => n == |ActiveIds(h, at)|
  }

  /** Every event is what the events before it dictate. */
  ghost predicate Consistent(h: History) {
    forall i :: 0 <= i < |h| ==> EventOk(h[..i], h[i])
  }

  ghost predicate UniqueIds(h: History) {
    forall t, u :: Issued(t) in h && Issued(u) in h && t.token == u.token ==> t == u
  }

  /** The abstraction relation, at a clock reading. The store may keep lapsed tokens it has not swept yet. */
  ghost predicate Refines(store: Store, h: History, clock: int) {
    && UniqueIds(h)
    && (forall id :: id in store ==> store[id].token == id && Issued(store[id]) in h && !Redeemed(h, id))
    && (forall tok :: Usable(h, tok, clock) ==> tok.token in store && store[tok.token] == tok)
  }

  // ---------- Each operation keeps the relation ----------

  lemma RedeemedExtends(h: History, e: Event, id: string)
    ensures Redeemed(h + [e], id) <==> Redeemed(h, id) || IsRedemption(e, id)
  {
    if Redeemed(h, id) {
      var r :| r in h && IsRedemption(r, id);
      assert r in h + [e];
    }
    if IsRedemption(e, id) {
      assert (h + [e])[|h|] == e;
    }
  }

  lemma UsableExtends(h: History, e: Event, tok: ConfirmToken, now: int)
    ensures Usable(h + [e], tok, now)
       <==> (Issued(tok) in h || e == Issued(tok)) && !Redeemed(h, tok.token) && !IsRedemption(e, tok.token)
            && now <= tok.expiresAt
  {
    RedeemedExtends(h, e, tok.token);
    assert Issued(tok) in h + [e] <==> Issued(tok) in h || e == Issued(tok);
  }

  lemma ConsistentExtends(h: History, e: Event)
    requires Consistent(h) && EventOk(h, e)
    ensures Consistent(h + [e])
  {
    var g := h + [e];
    forall i | 0 <= i < |g| ensures EventOk(g[..i], g[i]) {
      assert g[..i] == if i < |h| then h[..i] else h;
    }
  }

  lemma RedeemedWasIssued(h: History, id: string)
    requires Consistent(h) && Redeemed(h, id)
    ensures id in IssuedIds(h)
  {
    var e :| e in h && IsRedemption(e, id);
    var i :| 0 <= i < |h| && h[i] == e;
    assert EventOk(h[..i], h[i]);
    assert Issued(e.outcome.info) in h[..i];
    assert Issued(e.outcome.info) in h;
  }

  /** Sweeping at any time not before the clock leaves the specification's view intact. */
  lemma SweepKeepsRefinement(store: Store, h: History, clock: int, now: int)
    requires Refines(store, h, clock) && clock <= now
    ensures Refines(Swept(store, now), h, now)
  {
    forall tok | Usable(h, tok, now) ensures tok.token in Swept(store, now) && Swept(store, now)[tok.token] == tok {
      assert Usable(h, tok, clock);
    }
  }

  lemma MintKeepsRefinement(store: Store, h: History, clock: int, tok: ConfirmToken, now: int)
    requires Refines(store, h, clock) && Consistent(h) && clock <= now
    requires tok.token !in IssuedIds(h)
    ensures Refines(store[tok.token := tok], h + [Issued(tok)], now)
    ensures Consistent(h + [Issued(tok)])
  {
    var e := Issued(tok);
    var store' := store[tok.token := tok];
    var g := h + [e];
    ConsistentExtends(h, e);
    if Redeemed(h, tok.token) { RedeemedWasIssued(h, tok.token); }
    assert e in g by { assert g[|h|] == e; }
    forall t | Issued(t) in h ensures t.token != tok.token && Issued(t) in g {
      assert Issued(t).tok.token in IssuedIds(h);
    }
    forall id | id in store' ensures store'[id].token == id && Issued(store'[id]) in g && !Redeemed(g, id) {
      RedeemedExtends(h, e, id);
    }
    forall t | Usable(g, t, now) ensures t.token in store' && store'[t.token] == t {
      UsableExtends(h, e, t, now);
      if Issued(t) in h { assert Usable(h, t, clock); }
    }
  }

  lemma CheckIsDictated(store: Store, h: History, clock: int, id: string, ws: string, tool: string, now: int)
    requires Refines(store, h, clock) && clock <= now
    ensures OutcomeOk(h, id, ws, tool, now, Check(store, id, ws, tool, now))
  {
    forall tok | Usable(h, tok, now) && tok.token == id ensures id in store && store[id] == tok {
      assert Usable(h, tok, clock);
    }
    if id in store && now <= store[id].expiresAt {
      assert Usable(h, store[id], now);
    }
  }

  lemma CheckKeepsRefinement(store: Store, h: History, clock: int, id: string, ws: string, tool: string, now: int)
    requires Refines(store, h, clock) && Consistent(h) && clock <= now
    ensures var e := Attempted(id, ws, tool, now, Check(store, id, ws, tool, now));
            Refines(AfterCheck(store, id, ws, tool, now), h + [e], now) && Consistent(h + [e])
  {
    var e := Attempted(id, ws, tool, now, Check(store, id, ws, tool, now));
    var store' := AfterCheck(store, id, ws, tool, now);
    CheckIsDictated(store, h, clock, id, ws, tool, now);
    ConsistentExtends(h, e);
    var g := h + [e];
    forall t ensures Issued(t) in g <==> Issued(t) in h {
    }
    forall k | k in store' ensures store'[k].token == k && Issued(store'[k]) in g && !Redeemed(g, k) {
      RedeemedExtends(h, e, k);
    }
    forall t | Usable(g, t, now) ensures t.token in store' && store'[t.token] == t {
      UsableExtends(h, e, t, now);
      assert Usable(h, t, clock);
    }
  }

  lemma CountKeepsRefinement(store: Store, h: History, clock: int, now: int)
    requires Refines(store, h, clock) && Consistent(h) && clock <= now
    ensures |Swept(store, now)| == |ActiveIds(h, now)|
    ensures Refines(Swept(store, now), h + [Counted(now, |Swept(store, now)|)], now)
    ensures Consistent(h + [Counted(now, |Swept(store, now)|)])
  {
    SweepKeepsRefinement(store, h, clock, now);
    var swept := Swept(store, now);
    assert swept.Keys == ActiveIds(h, now) by {
      forall id | id in swept.Keys ensures id in ActiveIds(h, now) {
        assert Issued(swept[id]) in h && Usable(h, swept[id], now);
        assert Issued(swept[id]).tok.token == id;
      }
    }
    var e := Counted(now, |swept|);
    ConsistentExtends(h, e);
    var g := h + [e];
    forall id ensures Redeemed(g, id) <==> Redeemed(h, id) { RedeemedExtends(h, e, id); }
    forall t ensures Issued(t) in g <==> Issued(t) in h { }
    forall t | Usable(g, t, now) ensures Usable(h, t, now) { UsableExtends(h, e, t, now); }
  }

  // ---------- Whole-history consequences ----------

  // A run of the service with its clean-ups, or with every clean-up left out.

  datatype Operation =
    | Generate(request: ConfirmRequest, id: string, at: int, sweepAt: int)
    | Validate(id: string, workspaceId: string, toolName: string, at: int)
    | Count(at: int)
  {
    function End(): int { if Generate? then sweepAt else at }
  }

  datatype Answer = Verdict(validation: Validation) | Size(n: nat)

  /** Callers learn from both reasons only that the token is gone. */
  function Coarse(v: Validation): Validation {
    if v == Refused(Expired) then Refused(NotFound) else v
  }

  ghost predicate InTimeOrder(ops: seq<Operation>, clock: int) {
    ops == [] || (clock <= ops[0].at <= ops[0].End() && InTimeOrder(ops[1..], ops[0].End()))
  }

  function Reply(store: Store, op: Operation): seq<Answer> {
    match op
    case Generate(_, _, _, _) => []
    case Validate(id, ws, tool, at) => [Verdict(Coarse(Check(store, id, ws, tool, at)))]
    case Count(at) => [Size(|Swept(store, at)|)]
  }

  function AfterOperation(store: Store, op: Operation, sweeping: bool): Store {
    match op
    case Generate(request, id, at, sweepAt) =>
      var added := store[id := Minted(request, id, at)];
      if sweeping then Swept(added, sweepAt) else added
    case Validate(id, ws, tool, at) => AfterCheck(store, id, ws, tool, at)
    case Count(at) => if sweeping then Swept(store, at) else store
  }

  function Answers(store: Store, ops: seq<Operation>, sweeping: bool): seq<Answer>
    decreases |ops|
  {
    if ops == [] then []
    else Reply(store, ops[0]) + Answers(AfterOperation(store, ops[0], sweeping), ops[1..], sweeping)
  }

  ghost predicate Live(store: Store, id: string, now: int) {
    id in store && now <= store[id].expiresAt
  }

  /** The two stores differ at most in tokens that have already lapsed. */
  ghost predicate SameLive(a: Store, b: Store, now: int) {
    forall id :: Live(a, id, now) || Live(b, id, now) ==> Live(a, id, now) && Live(b, id, now) && a[id] == b[id]
  }

  lemma StayingTheSame(a: Store, b: Store, clock: int, now: int)
    requires SameLive(a, b, clock) && clock <= now
    ensures SameLive(a, b, now)
  {
    forall id | Live(a, id, now) || Live(b, id, now) ensures Live(a, id, now) && Live(b, id, now) && a[id] == b[id] {
      assert Live(a, id, clock) || Live(b, id, clock);
    }
  }

  lemma ReplyIgnoresLapsed(a: Store, b: Store, op: Operation)
    requires SameLive(a, b, op.at)
    ensures Reply(a, op) == Reply(b, op)
  {
    match op
    case Generate(_, _, _, _) =>
    case Validate(id, ws, tool, at) =>
      assert Live(a, id, at) <==> Live(b, id, at);
    case Count(at) =>
      forall id ensures id in Swept(a, at) <==> Live(a, id, at) { }
      forall id ensures id in Swept(b, at) <==> Live(b, id, at) { }
      assert Swept(a, at) == Swept(b, at);
  }

  lemma EffectIgnoresLapsed(a: Store, b: Store, op: Operation, sweepA: bool, sweepB: bool)
    requires op.at <= op.End() && SameLive(a, b, op.at)
    ensures SameLive(AfterOperation(a, op, sweepA), AfterOperation(b, op, sweepB), op.End())
  {
    StayingTheSame(a, b, op.at, op.End());
    var x, y := AfterOperation(a, op, sweepA), AfterOperation(b, op, sweepB);
    forall id | Live(x, id, op.End()) || Live(y, id, op.End())
      ensures Live(x, id, op.End()) && Live(y, id, op.End()) && x[id] == y[id]
    {
      assert Live(a, id, op.End()) <==> Live(b, id, op.End());
    }
  }

  /** Cleaning up never changes any later verdict or count, over a whole run. */
  lemma {:induction false} CleanupChangesNoAnswer(swept: Store, kept: Store, ops: seq<Operation>, clock: int)
    requires SameLive(swept, kept, clock) && InTimeOrder(ops, clock)
    ensures Answers(swept, ops, true) == Answers(kept, ops, false)
    decreases |ops|
  {
    if ops == [] {
    } else {
      var op := ops[0];
      StayingTheSame(swept, kept, clock, op.at);
      ReplyIgnoresLapsed(swept, kept, op);
      EffectIgnoresLapsed(swept, kept, op, true, false);
      CleanupChangesNoAnswer(
        AfterOperation(swept, op, true), AfterOperation(kept, op, false), ops[1..], op.End());
    }
  }

  /** A refused validation, or a count. */
  predicate ConsumesNothing(store: Store, op: Operation) {
    op.Count? || (op.Validate? && Check(store, op.id, op.workspaceId, op.toolName, op.at).Refused?)
  }

  /** The run without some of its refused validations and counts: those `drop` selects by position. */
  function Thinned(store: Store, ops: seq<Operation>, drop: nat -> bool, n: nat): seq<Operation>
    decreases |ops|
  {
    if ops == [] then []
    else
      (if drop(n) && ConsumesNothing(store, ops[0]) then [] else [ops[0]])
      + Thinned(AfterOperation(store, ops[0], true), ops[1..], drop, n + 1)
  }

  /** What the whole run answers to the operations that are left in. */
  function AnswersLeftIn(store: Store, ops: seq<Operation>, drop: nat -> bool, n: nat): seq<Answer>
    decreases |ops|
  {
    if ops == [] then []
    else
      (if drop(n) && ConsumesNothing(store, ops[0]) then [] else Reply(store, ops[0]))
      + AnswersLeftIn(AfterOperation(store, ops[0], true), ops[1..], drop, n + 1)
  }

  lemma NothingConsumed(whole: Store, thin: Store, op: Operation)
    requires op.at <= op.End() && SameLive(whole, thin, op.at) && ConsumesNothing(whole, op)
    ensures SameLive(AfterOperation(whole, op, true), thin, op.End())
  {
    StayingTheSame(whole, thin, op.at, op.End());
    var x := AfterOperation(whole, op, true);
    forall id ensures Live(x, id, op.End()) <==> Live(whole, id, op.End()) { }
    forall id | Live(x, id, op.End()) || Live(thin, id, op.End())
      ensures Live(x, id, op.End()) && Live(thin, id, op.End()) && x[id] == thin[id]
    {
      assert Live(whole, id, op.End()) || Live(thin, id, op.End());
    }
  }

  /** Refused validations and counts consume nothing: whichever of them are taken out of a run, all the answers
      that remain are the same. */
  lemma {:induction false} RefusalsConsumeNothing(
    whole: Store, thin: Store, ops: seq<Operation>, drop: nat -> bool, n: nat, clock: int)
    requires SameLive(whole, thin, clock) && InTimeOrder(ops, clock)
    ensures Answers(thin, Thinned(whole, ops, drop, n), true) == AnswersLeftIn(whole, ops, drop, n)
    decreases |ops|
  {
    if ops == [] {
    } else {
      var op, after := ops[0], AfterOperation(whole, ops[0], true);
      var rest := Thinned(after, ops[1..], drop, n + 1);
      StayingTheSame(whole, thin, clock, op.at);
      if drop(n) && ConsumesNothing(whole, op) {
        NothingConsumed(whole, thin, op);
        RefusalsConsumeNothing(after, thin, ops[1..], drop, n + 1, op.End());
        assert [] + rest == rest;
      } else {
        ReplyIgnoresLapsed(whole, thin, op);
        EffectIgnoresLapsed(whole, thin, op, true, true);
        RefusalsConsumeNothing(after, AfterOperation(thin, op, true), ops[1..], drop, n + 1, op.End());
        assert ([op] + rest)[1..] == rest;
      }
    }
  }

  // The events a run records.

  ghost function Recorded(store: Store, h: History, op: Operation): History {
    match op
    case Generate(request, id, at, _) => h + [Issued(Minted(request, id, at))]
    case Validate(id, ws, tool, at) => h + [Attempted(id, ws, tool, at, Check(store, id, ws, tool, at))]
    case Count(at) => h + [Counted(at, |Swept(store, at)|)]
  }

  ghost function RunHistory(store: Store, h: History, ops: seq<Operation>): History
    decreases |ops|
  {
    if ops == [] then h
    else RunHistory(AfterOperation(store, ops[0], true), Recorded(store, h, ops[0]), ops[1..])
  }

  /** No identifier is drawn twice. */
  ghost predicate FreshIds(used: set<string>, ops: seq<Operation>)
    decreases |ops|
  {
    ops == [] ||
    if ops[0].Generate? then ops[0].id !in used && FreshIds(used + {ops[0].id}, ops[1..]) else FreshIds(used, ops[1..])
  }

  lemma OperationKeepsRefinement(store: Store, h: History, clock: int, op: Operation)
    requires Refines(store, h, clock) && Consistent(h) && clock <= op.at <= op.End()
    requires op.Generate? ==> op.id !in IssuedIds(h)
    ensures Refines(AfterOperation(store, op, true), Recorded(store, h, op), op.End())
    ensures Consistent(Recorded(store, h, op))
    ensures IssuedIds(Recorded(store, h, op)) == IssuedIds(h) + if op.Generate? then {op.id} else {}
  {
    match op
    case Generate(request, id, at, sweepAt) =>
      var tok := Minted(request, id, at);
      MintKeepsRefinement(store, h, clock, tok, at);
      SweepKeepsRefinement(store[id := tok], h + [Issued(tok)], at, sweepAt);
    case Validate(id, ws, tool, at) => CheckKeepsRefinement(store, h, clock, id, ws, tool, at);
    case Count(at) => CountKeepsRefinement(store, h, clock, at);
  }

  /** Over every run in time order with fresh identifiers, each verdict and each count is exactly what the
      events before it dictate. */
  lemma {:induction false} EveryRunIsConsistent(
    store: Store, h: History, clock: int, used: set<string>, ops: seq<Operation>)
    requires Refines(store, h, clock) && Consistent(h) && used == IssuedIds(h)
    requires InTimeOrder(ops, clock) && FreshIds(used, ops)
    ensures Consistent(RunHistory(store, h, ops))
    decreases |ops|
  {
    if ops == [] {
    } else {
      var op := ops[0];
      OperationKeepsRefinement(store, h, clock, op);
      var used' := if op.Generate? then used + {op.id} else used;
      assert FreshIds(used', ops[1..]);
      EveryRunIsConsistent(AfterOperation(store, op, true), Recorded(store, h, op), op.End(), used', ops[1..]);
    }
  }

  // What becomes of one issued token.

  function StoreAfter(store: Store, ops: seq<Operation>): Store
    decreases |ops|
  {
    if ops == [] then store else StoreAfter(AfterOperation(store, ops[0], true), ops[1..])
  }

  function EndOf(ops: seq<Operation>, clock: int): int {
    if ops == [] then clock else EndOf(ops[1..], ops[0].End())
  }

  predicate NotDrawnAgain(ops: seq<Operation>, id: string) {
    forall k :: 0 <= k < |ops| && ops[k].Generate? ==> ops[k].id != id
  }

  /** Some validation in the run is granted for this identifier. */
  predicate RedeemedIn(store: Store, ops: seq<Operation>, id: string)
    decreases |ops|
  {
    ops != [] &&
    var op := ops[0];
    || (op.Validate? && op.id == id && Check(store, id, op.workspaceId, op.toolName, op.at).Granted?)
    || RedeemedIn(AfterOperation(store, op, true), ops[1..], id)
  }

  lemma {:induction false} GoneStaysGone(store: Store, ops: seq<Operation>, id: string)
    requires id !in store && NotDrawnAgain(ops, id)
    ensures id !in StoreAfter(store, ops) && !RedeemedIn(store, ops, id)
    decreases |ops|
  {
    if ops == [] {
    } else {
      GoneStaysGone(AfterOperation(store, ops[0], true), ops[1..], id);
    }
  }

  /** The store has the token at least until it expires, and never another one under its identifier. */
  ghost predicate Keeps(store: Store, id: string, tok: ConfirmToken, clock: int) {
    (id in store ==> store[id] == tok) && (clock <= tok.expiresAt ==> id in store)
  }

  lemma {:induction false} TokenThroughRun(store: Store, ops: seq<Operation>, clock: int, id: string, tok: ConfirmToken)
    requires Keeps(store, id, tok, clock) && InTimeOrder(ops, clock) && NotDrawnAgain(ops, id)
    ensures if RedeemedIn(store, ops, id) then id !in StoreAfter(store, ops)
            else Keeps(StoreAfter(store, ops), id, tok, EndOf(ops, clock))
    decreases |ops|
  {
    if ops == [] {
    } else {
      var op, after := ops[0], AfterOperation(store, ops[0], true);
      if op.Validate? && op.id == id && Check(store, id, op.workspaceId, op.toolName, op.at).Granted? {
        GoneStaysGone(after, ops[1..], id);
      } else {
        assert Keeps(after, id, tok, op.End());
        TokenThroughRun(after, ops[1..], op.End(), id, tok);
      }
    }
  }

  /** The lifetime a request asks for, or else five minutes. */
  ghost predicate AsksFor(request: ConfirmRequest, seconds: int) {
    if request.expiresInSeconds.None? || request.expiresInSeconds == Some(0) then seconds == 300
    else request.expiresInSeconds == Some(seconds)
  }

  /** The round trip in terms of the request: whatever happens in between, a validation of an issued token is
      granted if and only if it is for the requested workspace and tool, by the requested expiry, and not after a
      grant; each other verdict is given exactly, and what is granted is what was requested. */
  lemma IssuedTokenVerdict(
    store: Store, request: ConfirmRequest, id: string, at: int, sweepAt: int, seconds: int,
    ops: seq<Operation>, t: int, ws: string, tool: string)
    requires at <= sweepAt && InTimeOrder(ops, sweepAt) && EndOf(ops, sweepAt) <= t
    requires NotDrawnAgain(ops, id) && AsksFor(request, seconds)
    ensures var issued := AfterOperation(store, Generate(request, id, at, sweepAt), true);
            var verdict := Check(StoreAfter(issued, ops), id, ws, tool, t);
            if RedeemedIn(issued, ops, id) || t > at + 1000 * seconds
            then verdict == Refused(NotFound) || verdict == Refused(Expired)
            else if ws != request.workspaceId then verdict == Refused(WorkspaceMismatch)
            else if tool != request.toolName then verdict == Refused(ToolMismatch(request.toolName))
            else verdict == Granted(ConfirmToken(
                   id, request.workspaceId, request.toolName, request.actionPreview, at + 1000 * seconds, at))
  {
    var tok := Minted(request, id, at);
    var issued := AfterOperation(store, Generate(request, id, at, sweepAt), true);
    assert Keeps(issued, id, tok, sweepAt);
    TokenThroughRun(issued, ops, sweepAt, id, tok);
  }

  lemma RedeemedAtMostOnce(h: History, i: nat, j: nat, id: string)
    requires Consistent(h) && i < j < |h| && IsRedemption(h[i], id)
    ensures !IsRedemption(h[j], id)
  {
    assert EventOk(h[..j], h[j]);
    assert h[i] in h[..j];
    assert Redeemed(h[..j], id);
  }

  /** Every redemption is preceded by the issue of that very token for that workspace and tool. */
  lemma RedemptionHasIssue(h: History, j: nat) returns (i: nat)
    requires Consistent(h) && j < |h| && h[j].Attempted? && h[j].outcome.Granted?
    ensures i < j && h[i] == Issued(h[j].outcome.info)
    ensures h[i].tok.token == h[j].id && h[i].tok.workspaceId == h[j].workspaceId && h[i].tok.toolName == h[j].toolName
    ensures h[j].at <= h[i].tok.expiresAt
  {
    assert EventOk(h[..j], h[j]);
    i :| 0 <= i < |h[..j]| && h[..j][i] == Issued(h[j].outcome.info);
  }

  /** Issues and redemptions only: refused attempts and counts dropped. */
  ghost function Essence(h: History): History {
    if h == [] then []
    else
      var rest, e := Essence(h[..|h| - 1]), h[|h| - 1];
      if e.Issued? || (e.Attempted? && e.outcome.Granted?) then rest + [e] else rest
  }

  lemma {:induction false} EssenceKeepsEvents(h: History, e: Event)
    ensures e in Essence(h) <==> e in h && (e.Issued? || (e.Attempted? && e.outcome.Granted?))
  {
    if h == [] {
    } else {
      EssenceKeepsEvents(h[..|h| - 1], e);
      assert h == h[..|h| - 1] + [h[|h| - 1]];
    }
  }

  /** What the history grants does not depend on its refused attempts and counts. */
  lemma GrantsIgnoreRefusals(h: History, id: string, ws: string, tool: string, now: int)
    ensures Grants(Essence(h), id, ws, tool, now) <==> Grants(h, id, ws, tool, now)
  {
    forall e ensures e in Essence(h) <==> e in h && (e.Issued? || (e.Attempted? && e.outcome.Granted?)) {
      EssenceKeepsEvents(h, e);
    }
    forall k ensures Redeemed(Essence(h), k) <==> Redeemed(h, k) { }
    forall tok ensures Usable(Essence(h), tok, now) <==> Usable(h, tok, now) { }
  }

  lemma RedeemedIdsAre(h: History, id: string)
    ensures id in RedeemedIds(h) <==> Redeemed(h, id)
  {
    if Redeemed(h, id) {
      var e :| e in h && IsRedemption(e, id);
      assert e.id in RedeemedIds(h);
    }
  }

  lemma IssuedIdsSplit(h: History, now: int)
    requires Consistent(h)
    ensures IssuedIds(h) == ActiveIds(h, now) + LapsedIds(h, now) + RedeemedIds(h)
  {
    forall id ensures id in RedeemedIds(h) <==> Redeemed(h, id) { RedeemedIdsAre(h, id); }
    forall id | id in RedeemedIds(h) ensures id in IssuedIds(h) { RedeemedWasIssued(h, id); }
  }

  lemma ActiveAndLapsedApart(h: History, now: int)
    requires UniqueIds(h)
    ensures ActiveIds(h, now) !! LapsedIds(h, now)
    ensures (ActiveIds(h, now) + LapsedIds(h, now)) !! RedeemedIds(h)
  {
    forall id ensures id in RedeemedIds(h) <==> Redeemed(h, id) { RedeemedIdsAre(h, id); }
  }

  /** active = issued - consumed - expired */
  lemma ActiveCountBalances(h: History, now: int)
    requires Consistent(h) && UniqueIds(h)
    ensures |ActiveIds(h, now)| == |IssuedIds(h)| - |RedeemedIds(h)| - |LapsedIds(h, now)|
  {
    IssuedIdsSplit(h, now);
    ActiveAndLapsedApart(h, now);
  }

  // ---------- The mutable service ----------

  /** The module-level token map that every service shares, with its ghost history. */
  class TokenStore {
    var tokens: Store
    ghost var history: History
    ghost var clock: int

    ghost predicate Valid()
      reads this
    {
      Consistent(history) && Refines(tokens, history, clock)
    }

    constructor (ghost now: int)
      ensures Valid() && history == [] && clock == now && tokens == map[]
    {
      tokens, history, clock := map[], [], now;
    }
  }

  class ConfirmGuard {
    const store: TokenStore

    /** A new service changes nothing: it sees the tokens of all services before it. */
    constructor (shared: TokenStore)
      ensures store == shared && unchanged(shared)
    {
      store := shared;
    }

    method CleanupExpiredTokens(now: int)
      modifies store`tokens
      ensures store.tokens == Swept(old(store.tokens), now)
    {
      ghost var before := store.tokens;
      var entries := store.tokens.Keys;
      while entries != {}
        invariant entries <= store.tokens.Keys
        invariant forall id :: id in store.tokens ==> id in before && store.tokens[id] == before[id]
        invariant forall id :: id in store.tokens && id !in entries ==> now <= store.tokens[id].expiresAt
        invariant forall id :: id in before && now <= before[id].expiresAt ==> id in store.tokens
      {
        var id :| id in entries;
        if now > store.tokens[id].expiresAt {
          store.tokens := store.tokens - {id};
        }
        entries := entries - {id};
      }
      assert store.tokens == Swept(before, now);
    }

    /** `tokenId` is the freshly drawn random identifier; `sweepAt` is the
        clock reading of the trailing clean-up. */
    method GenerateToken(request: ConfirmRequest, tokenId: string, now: int, sweepAt: int) returns (token: ConfirmToken)
      requires store.Valid() && store.clock <= now <= sweepAt
      requires tokenId !in IssuedIds(store.history)
      modifies store
      ensures store.Valid() && store.clock == sweepAt
      ensures token.token == tokenId && token.createdAt == now
      ensures token.workspaceId == request.workspaceId && token.toolName == request.toolName
      ensures token.actionPreview == request.actionPreview
      ensures forall seconds :: AsksFor(request, seconds) ==> token.expiresAt == now + 1000 * seconds
      ensures store.history == old(store.history) + [Issued(token)]
      ensures store.tokens == Swept(old(store.tokens)[tokenId := token], sweepAt)
    {
      var seconds := DEFAULT_EXPIRY_SECONDS;
      if request.expiresInSeconds.Some? && request.expiresInSeconds.value != 0 {
        seconds := request.expiresInSeconds.value;
      }
      token := ConfirmToken(
        tokenId, request.workspaceId, request.toolName, request.actionPreview, now + seconds * 1000, now);
      MintKeepsRefinement(store.tokens, store.history, store.clock, token, now);
      store.tokens := store.tokens[tokenId := token];
      store.history := store.history + [Issued(token)];
      SweepKeepsRefinement(store.tokens, store.history, now, sweepAt);
      CleanupExpiredTokens(sweepAt);
      store.clock := sweepAt;
    }

    /** Succeeds exactly when the history grants it, and then the grant is spent. */
    method ValidateToken(tokenId: string, workspaceId: string, toolName: string, now: int) returns (result: Validation)
      requires store.Valid() && store.clock <= now
      modifies store
      ensures store.Valid() && store.clock == now
      ensures OutcomeOk(old(store.history), tokenId, workspaceId, toolName, now, result)
      ensures store.history == old(store.history) + [Attempted(tokenId, workspaceId, toolName, now, result)]
      ensures result == Check(old(store.tokens), tokenId, workspaceId, toolName, now)
      ensures store.tokens == AfterCheck(old(store.tokens), tokenId, workspaceId, toolName, now)
    {
      CheckIsDictated(store.tokens, store.history, store.clock, tokenId, workspaceId, toolName, now);
      CheckKeepsRefinement(store.tokens, store.history, store.clock, tokenId, workspaceId, toolName, now);
      if tokenId !in store.tokens {
        result := Refused(NotFound);
        assert store.tokens == AfterCheck(old(store.tokens), tokenId, workspaceId, toolName, now);
      } else {
        var token := store.tokens[tokenId];
        if now > token.expiresAt {
          store.tokens := store.tokens - {tokenId};
          result := Refused(Expired);
        } else if token.workspaceId != workspaceId {
          result := Refused(WorkspaceMismatch);
        } else if token.toolName != toolName {
          result := Refused(ToolMismatch(token.toolName));
        } else {
          store.tokens := store.tokens - {tokenId};
          result := Granted(token);
        }
      }
      store.history := store.history + [Attempted(tokenId, workspaceId, toolName, now, result)];
      store.clock := now;
    }

    method GetActiveTokenCount(now: int) returns (n: nat)
      requires store.Valid() && store.clock <= now
      modifies store
      ensures store.Valid() && store.clock == now
      ensures var h := old(store.history);
              n == |IssuedIds(h)| - |RedeemedIds(h)| - |LapsedIds(h, now)|
      ensures store.history == old(store.history) + [Counted(now, n)]
      ensures store.tokens == Swept(old(store.tokens), now)
    {
      CountKeepsRefinement(store.tokens, store.history, store.clock, now);
      ActiveCountBalances(store.history, now);
      CleanupExpiredTokens(now);
      n := |store.tokens|;
      store.history := store.history + [Counted(now, n)];
      store.clock := now;
    }
  }
}
